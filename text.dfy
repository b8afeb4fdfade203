/**
 * The JavaScript string operations the server and the browser scripts use:
 * `trim`, `startsWith`, `endsWith`, `includes`, `split(sep)[k]`, ASCII
 * `toLowerCase`, `String(n)` on integers and `padStart(2, '0')`.
 */
module Text {
  import opened Wrappers

  /** The characters `String.prototype.trim` removes: WhiteSpace and LineTerminator. */
  predicate IsJsWhitespace(c: char) {
    c == ' ' || c == '\t' || c == '\n' || c == '\r' || c == '\U{000B}' || c == '\U{000C}'
    || c == '\U{00A0}' || c == '\U{1680}' || ('\U{2000}' <= c <= '\U{200A}')
    || c == '\U{2028}' || c == '\U{2029}' || c == '\U{202F}' || c == '\U{205F}'
    || c == '\U{3000}' || c == '\U{FEFF}'
  }

  /** The index of the first non-whitespace character at or after `i`, or `|s|`. */
  function ContentStart(s: string, i: nat): (r: nat)
    requires i <= |s|
    ensures i <= r <= |s|
    ensures forall k :: i <= k < r ==> IsJsWhitespace(s[k])
    ensures r == |s| || !IsJsWhitespace(s[r])
    decreases |s| - i
  {
    if i < |s| && IsJsWhitespace(s[i]) then ContentStart(s, i + 1) else i
  }

  /** The index just past the last non-whitespace character before `j`, or `lo`. */
  function ContentEnd(s: string, lo: nat, j: nat): (r: nat)
    requires lo <= j <= |s|
    ensures lo <= r <= j
    ensures forall k :: r <= k < j ==> IsJsWhitespace(s[k])
    ensures r == lo || !IsJsWhitespace(s[r - 1])
    decreases j - lo
  {
    if lo < j && IsJsWhitespace(s[j - 1]) then ContentEnd(s, lo, j - 1) else j
  }

  /**
   * `s.trim()`: the slice of `s` left when the whitespace runs at both ends are
   * removed; it neither starts nor ends with whitespace.
   */
  function Trim(s: string): (r: string)
    ensures ContentStart(s, 0) + |r| <= |s|
    ensures r == s[ContentStart(s, 0)..ContentStart(s, 0) + |r|]
    ensures forall i :: 0 <= i < ContentStart(s, 0) ==> IsJsWhitespace(s[i])
    ensures forall i :: ContentStart(s, 0) + |r| <= i < |s| ==> IsJsWhitespace(s[i])
    ensures r == [] || (!IsJsWhitespace(r[0]) && !IsJsWhitespace(r[|r| - 1]))
  {
    var lo := ContentStart(s, 0);
    s[lo..ContentEnd(s, lo, |s|)]
  }

  predicate StartsWith(s: string, prefix: string) {
    |prefix| <= |s| && s[..|prefix|] == prefix
  }

  predicate EndsWith(s: string, suffix: string) {
    |suffix| <= |s| && s[|s| - |suffix|..] == suffix
  }

  /** `sep` occurs in `s` starting at index `i`. */
  predicate OccursAt(s: string, sep: string, i: nat) {
    i + |sep| <= |s| && s[i..i + |sep|] == sep
  }

  /** The first index at or after `from` where `sep` occurs. */
  function IndexOfFrom(s: string, sep: string, from: nat): (r: Option<nat>)
    requires from <= |s|
    ensures r.Some? ==> from <= r.value && OccursAt(s, sep, r.value)
    ensures r.Some? ==> forall j :: from <= j < r.value ==> !OccursAt(s, sep, j)
    ensures r.None? ==> forall j :: from <= j <= |s| ==> !OccursAt(s, sep, j)
    decreases |s| - from
  {
    if OccursAt(s, sep, from) then Some(from)
    else if from == |s| then None
    else IndexOfFrom(s, sep, from + 1)
  }

  /** `s.indexOf(sep)`, with `None` for -1. */
  function IndexOf(s: string, sep: string): (r: Option<nat>)
    ensures r.Some? ==> OccursAt(s, sep, r.value) && forall j :: 0 <= j < r.value ==> !OccursAt(s, sep, j)
    ensures r.None? ==> forall j :: 0 <= j <= |s| ==> !OccursAt(s, sep, j)
  {
    IndexOfFrom(s, sep, 0)
  }

  /** `s.includes(sep)`. */
  predicate Contains(s: string, sep: string) {
    IndexOf(s, sep).Some?
  }

  /** `s.split(sep)[0]`: everything before the first `sep`, or all of `s`. */
  function Before(s: string, sep: string): (r: string)
    ensures |r| <= |s| && r == s[..|r|]
    ensures Contains(s, sep) ==> OccursAt(s, sep, |r|)
    ensures forall j :: 0 <= j < |r| ==> !OccursAt(s, sep, j)
    ensures !Contains(s, sep) ==> r == s
  {
    match IndexOf(s, sep)
    case Some(i) => s[..i]
    case None => s
  }

  /** An occurrence with none before it is the one `indexOf` finds, and `split(sep)[0]` stops there. */
  lemma FirstOccurrence(s: string, sep: string, k: nat)
    requires OccursAt(s, sep, k)
    requires forall j :: 0 <= j < k ==> !OccursAt(s, sep, j)
    ensures IndexOf(s, sep) == Some(k) && Contains(s, sep)
    ensures Before(s, sep) == s[..k]
  {
  }

  /**
   * `s.split(sep)[1]` when `s` contains `sep`: the piece between the first
   * occurrence and the next one (or the end).
   */
  function SecondPiece(s: string, sep: string): (r: string)
    requires Contains(s, sep)
    ensures IndexOf(s, sep).value + |sep| + |r| <= |s|
    ensures r == s[IndexOf(s, sep).value + |sep|..IndexOf(s, sep).value + |sep| + |r|]
  {
    Before(s[IndexOf(s, sep).value + |sep|..], sep)
  }

  /** The first index of character `c`. */
  function FirstIndexOfChar(s: string, c: char): (r: Option<nat>)
    ensures r.Some? ==> r.value < |s| && s[r.value] == c && forall j :: 0 <= j < r.value ==> s[j] != c
    ensures r.None? ==> forall j :: 0 <= j < |s| ==> s[j] != c
  {
    if s == [] then None
    else if s[0] == c then Some(0)
    else match FirstIndexOfChar(s[1..], c)
      case Some(i) => Some(i + 1)
      case None => None
  }

  /** The last index of character `c`. */
  function LastIndexOfChar(s: string, c: char): (r: Option<nat>)
    ensures r.Some? ==> r.value < |s| && s[r.value] == c && forall j :: r.value < j < |s| ==> s[j] != c
    ensures r.None? ==> forall j :: 0 <= j < |s| ==> s[j] != c
  {
    if s == [] then None
    else if s[|s| - 1] == c then Some(|s| - 1)
    else LastIndexOfChar(s[..|s| - 1], c)
  }

  /** `s.replace(/\/+$/, '')`: removes the whole run of `/` at the end. */
  function StripTrailingSlashes(s: string): (r: string)
    ensures |r| <= |s| && r == s[..|r|]
    ensures r == [] || r[|r| - 1] != '/'
    ensures forall i :: |r| <= i < |s| ==> s[i] == '/'
  {
    if s != [] && s[|s| - 1] == '/' then StripTrailingSlashes(s[..|s| - 1]) else s
  }

  /** ASCII lower-casing of one character. */
  function LowerChar(c: char): (r: char)
    ensures 'A' <= c <= 'Z' ==> r as int == c as int + 32
    ensures !('A' <= c <= 'Z') ==> r == c
  {
    if 'A' <= c <= 'Z' then (c as int + 32) as char else c
  }

  /** `s.toLowerCase()` restricted to ASCII letters (see README). */
  function ToLower(s: string): (r: string)
    ensures |r| == |s|
    ensures forall i :: 0 <= i < |s| ==> r[i] == LowerChar(s[i])
  {
    if s == [] then [] else [LowerChar(s[0])] + ToLower(s[1..])
  }

  predicate IsDigit(c: char) {
    '0' <= c <= '9'
  }

  function DigitChar(d: nat): (c: char)
    requires d < 10
    ensures IsDigit(c)
  {
    ('0' as int + d) as char
  }

  function DigitValue(c: char): (d: nat)
    requires IsDigit(c)
    ensures d < 10
  {
    c as int - '0' as int
  }

  /** `String(n)` for a non-negative integer: decimal digits without leading zeros. */
  function NatToString(n: nat): (r: string)
    ensures |r| >= 1
    ensures forall i :: 0 <= i < |r| ==> IsDigit(r[i])
    ensures (|r| == 1) == (n < 10)
  {
    if n < 10 then [DigitChar(n)] else NatToString(n / 10) + [DigitChar(n % 10)]
  }

  /** `String(n)` for any integer. */
  function IntToString(n: int): (r: string)
    ensures n >= 0 ==> r == NatToString(n)
    ensures n < 0 ==> r == "-" + NatToString(-n)
  {
    if n < 0 then "-" + NatToString(-n) else NatToString(n)
  }

  /** Reads a string of decimal digits. */
  function ParseNat(s: string): nat
    requires forall i :: 0 <= i < |s| ==> IsDigit(s[i])
  {
    if s == [] then 0 else ParseNat(s[..|s| - 1]) * 10 + DigitValue(s[|s| - 1])
  }

  lemma {:induction false} ParseNatToString(n: nat)
    ensures ParseNat(NatToString(n)) == n
  {
    if n >= 10 {
      var r := NatToString(n);
      assert r[..|r| - 1] == NatToString(n / 10);
      ParseNatToString(n / 10);
    }
  }

  /** A leading zero does not change the value read. */
  lemma {:induction false} ParseNatLeadingZero(s: string)
    requires forall i :: 0 <= i < |s| ==> IsDigit(s[i])
    ensures ParseNat("0" + s) == ParseNat(s)
  {
    if s != [] {
      assert ("0" + s)[..|"0" + s| - 1] == "0" + s[..|s| - 1];
      ParseNatLeadingZero(s[..|s| - 1]);
    }
  }

  /** `s.padStart(2, '0')`: zeros in front up to length 2, nothing on longer strings. */
  function PadStart2(s: string): (r: string)
    ensures |r| == if |s| >= 2 then |s| else 2
    ensures r[|r| - |s|..] == s
    ensures forall i :: 0 <= i < |r| - |s| ==> r[i] == '0'
  {
    if |s| >= 2 then s else if |s| == 1 then "0" + s else "00"
  }
}
