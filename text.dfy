/** Character and string operations the Java library provides and the core relies on:
    character classes of java.util.regex, String.indexOf/contains/replace/equalsIgnoreCase
    and Integer.toString. */
module Text {

  /** The regular-expression class `\d` (ASCII digits only, as Java uses it by default). */
  predicate IsDigit(c: char) {
    '0' <= c <= '9'
  }

  /** The regular-expression class `\w`: `[a-zA-Z_0-9]`. */
  predicate IsWordChar(c: char) {
    ('a' <= c <= 'z') || ('A' <= c <= 'Z') || IsDigit(c) || c == '_'
  }

  predicate AllDigits(s: string) {
    forall i :: 0 <= i < |s| ==> IsDigit(s[i])
  }

  function DigitValue(c: char): (n: nat)
    requires IsDigit(c)
    ensures n < 10
  {
    c as int - '0' as int
  }

  function DigitChar(n: nat): (c: char)
    requires n < 10
    ensures IsDigit(c) && DigitValue(c) == n
  {
    ('0' as int + n) as char
  }

  /** The value of a string of decimal digits, most significant digit first. */
  function DecimalValue(s: string): nat
    requires AllDigits(s)
  {
    if s == [] then 0 else DecimalValue(s[..|s| - 1]) * 10 + DigitValue(s[|s| - 1])
  }

  /** Decimal notation of a natural number, without leading zeros. */
  function NatToString(n: nat): (s: string)
    ensures |s| > 0 && AllDigits(s)
  {
    if n < 10 then [DigitChar(n)] else NatToString(n / 10) + [DigitChar(n % 10)]
  }

  /** Reading back the digits of a number gives the number. */
  lemma {:induction false} NatToStringValue(n: nat)
    ensures DecimalValue(NatToString(n)) == n
  {
    if n >= 10 {
      NatToStringValue(n / 10);
      var s := NatToString(n);
      assert s[..|s| - 1] == NatToString(n / 10);
    }
  }

  /** The digits of a number have no leading zero: only 0 itself is written starting with 0. */
  lemma {:induction false} NatToStringNoLeadingZero(n: nat)
    ensures NatToString(n)[0] == '0' ==> n == 0 && |NatToString(n)| == 1
  {
    if n >= 10 {
      NatToStringNoLeadingZero(n / 10);
      assert NatToString(n)[0] == NatToString(n / 10)[0];
    }
  }

  /** Integer.toString: a minus sign before the digits of a negative number. */
  function IntToString(n: int): (s: string)
    ensures |s| > 0
  {
    if n < 0 then "-" + NatToString(-n) else NatToString(n)
  }

  /** `sub` occurs in `s` starting at position `p`. */
  predicate OccursAt(s: string, sub: string, p: int) {
    0 <= p && p + |sub| <= |s| && s[p..p + |sub|] == sub
  }

  /** The first position at or after `from` where `sub` occurs in `s`, or -1. */
  function IndexFrom(s: string, sub: string, from: nat): (r: int)
    ensures r == -1 || (from <= r && OccursAt(s, sub, r))
    ensures r == -1 ==> forall q :: from <= q ==> !OccursAt(s, sub, q)
    ensures r >= 0 ==> forall q :: from <= q < r ==> !OccursAt(s, sub, q)
    decreases |s| - from
  {
    if from + |sub| > |s| then -1
    else if s[from..from + |sub|] == sub then from
    else IndexFrom(s, sub, from + 1)
  }

  /** String.indexOf: the first position where `sub` occurs in `s`, or -1 when it does not occur. */
  function IndexOf(s: string, sub: string): (r: int)
    ensures r == -1 <==> forall q :: !OccursAt(s, sub, q)
    ensures r >= 0 ==> OccursAt(s, sub, r) && forall q :: 0 <= q < r ==> !OccursAt(s, sub, q)
    ensures r >= -1
  {
    IndexFrom(s, sub, 0)
  }

  /** An occurrence that no earlier occurrence precedes is the one String.indexOf finds. */
  lemma IndexOfIsFirstOccurrence(s: string, sub: string, p: int)
    requires OccursAt(s, sub, p)
    requires forall q :: 0 <= q < p ==> !OccursAt(s, sub, q)
    ensures IndexOf(s, sub) == p
  {
  }

  /** String.contains. */
  predicate Contains(s: string, sub: string) {
    IndexOf(s, sub) >= 0
  }

  /** String.replace(char, char) over every position of `s`. */
  function ReplaceChar(s: string, from: char, to: char): (r: string)
    ensures |r| == |s|
    ensures forall i :: 0 <= i < |s| ==> r[i] == (if s[i] == from then to else s[i])
    ensures from != to ==> from !in r
  {
    if s == [] then [] else [if s[0] == from then to else s[0]] + ReplaceChar(s[1..], from, to)
  }

  /** Character.toUpperCase restricted to the ASCII letters. */
  function ToUpperAscii(c: char): (u: char)
    ensures 'a' <= c <= 'z' ==> u as int == c as int - 32
    ensures !('a' <= c <= 'z') ==> u == c
  {
    if 'a' <= c <= 'z' then (c as int - 32) as char else c
  }

  /** The string with every ASCII letter upper-cased. */
  function UpperCased(s: string): (u: string)
    ensures |u| == |s| && forall i :: 0 <= i < |s| ==> u[i] == ToUpperAscii(s[i])
  {
    seq(|s|, i requires 0 <= i < |s| => ToUpperAscii(s[i]))
  }

  /** String.equalsIgnoreCase with the ASCII case mapping: same length, and at every position
      the characters agree once both are upper-cased. Equal strings, and strings that differ
      only in the case of their letters, are equal ignoring case. */
  predicate EqualsIgnoreCase(a: string, b: string): (r: bool)
    ensures r <==> UpperCased(a) == UpperCased(b)
    ensures a == b || UpperCased(a) == b ==> r
    ensures r ==> |a| == |b|
  {
    |a| == |b| && forall i :: 0 <= i < |a| ==> ToUpperAscii(a[i]) == ToUpperAscii(b[i])
  }

  /** One position of a regular expression built from single-character classes only. */
  datatype CharClass = Exactly(c: char) | AnyDigit | AnyWordChar

  /** The character belongs to the class: `\d` is an ASCII digit, `\w` a word character. */
  predicate Fits(c: char, k: CharClass) {
    match k
    case Exactly(e) => c == e
    case AnyDigit => IsDigit(c)
    case AnyWordChar => IsWordChar(c)
  }

  /** `k{n}`: the class n times over. */
  function Repeat(k: CharClass, n: nat): (p: seq<CharClass>)
    ensures |p| == n && forall i :: 0 <= i < n ==> p[i] == k
  {
    seq(n, _ => k)
  }

  /** Matcher.matches for such an expression: the whole string, one character per class. */
  predicate MatchesWhole(s: string, pattern: seq<CharClass>) {
    |s| == |pattern| && forall i :: 0 <= i < |s| ==> Fits(s[i], pattern[i])
  }
}
