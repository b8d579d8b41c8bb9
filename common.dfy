/** Failure-carrying values and the few java.lang.String operations the poker
    code relies on (trim, isBlank, indexOf), stated over Dafny strings. */
module Wrappers {

  datatype Option<+T> = None | Some(value: T)

  /** Either a value or the error the Java code would have thrown. */
  datatype Result<+T, +E> = Ok(value: T) | Err(error: E)

  /** Success or failure of an operation that returns nothing (a void method that may throw). */
  datatype Outcome<+E> = Pass | Fail(error: E)
}

module JavaStrings {

  /** Characters removed by String.trim(): every code point up to and including the space. */
  predicate IsTrimmable(c: char) {
    c <= ' '
  }

  /** Character.isWhitespace, which decides String.isBlank(). Unlike trim() it
      ignores most control characters and accepts the Unicode space separators
      other than the non-breaking ones. */
  predicate IsWhitespace(c: char) {
    c == ' ' || c == '\t' || c == '\n' || c == '\U{000B}' || c == '\U{000C}' || c == '\r'
    || ('\U{001C}' <= c <= '\U{001F}')
    || c == '\U{1680}' || ('\U{2000}' <= c <= '\U{2006}') || ('\U{2008}' <= c <= '\U{200A}')
    || c == '\U{2028}' || c == '\U{2029}' || c == '\U{205F}' || c == '\U{3000}'
  }

  /** String.isBlank(): empty or only whitespace. */
  predicate IsBlank(s: string) {
    forall i :: 0 <= i < |s| ==> IsWhitespace(s[i])
  }

  /** Number of leading characters trim() removes. */
  function LeadingTrimmable(s: string): (n: nat)
    ensures n <= |s|
    ensures forall i :: 0 <= i < n ==> IsTrimmable(s[i])
    ensures n < |s| ==> !IsTrimmable(s[n])
  {
    if s == [] || !IsTrimmable(s[0]) then 0 else 1 + LeadingTrimmable(s[1..])
  }

  /** Length of s once trim() has removed its trailing characters. */
  function TrailingCut(s: string): (n: nat)
    ensures n <= |s|
    ensures forall i :: n <= i < |s| ==> IsTrimmable(s[i])
    ensures n > 0 ==> !IsTrimmable(s[n - 1])
  {
    if s == [] || !IsTrimmable(s[|s| - 1]) then |s| else TrailingCut(s[..|s| - 1])
  }

  /** String.trim(). */
  function Trim(s: string): (r: string)
    ensures |r| <= |s|
    ensures r != [] ==> !IsTrimmable(r[0]) && !IsTrimmable(r[|r| - 1])
    ensures (s == [] || (!IsTrimmable(s[0]) && !IsTrimmable(s[|s| - 1]))) ==> r == s
  {
    var b := TrailingCut(s);
    var a := LeadingTrimmable(s[..b]);
    s[..b][a..]
  }

  /** String.indexOf(c, from): the first position at or after `from` holding c, or -1. */
  function IndexOf(s: string, c: char, from: nat): (r: int)
    decreases |s| - from
    ensures r == -1 || from <= r < |s|
    ensures r == -1 ==> forall i :: from <= i < |s| ==> s[i] != c
    ensures r != -1 ==> s[r] == c && forall i :: from <= i < r ==> s[i] != c
  {
    if from >= |s| then -1 else if s[from] == c then from else IndexOf(s, c, from + 1)
  }

  /** The concatenation of `parts` with `sep` between consecutive parts (String.join). */
  function Join(parts: seq<string>, sep: string): string
  {
    if parts == [] then [] else if |parts| == 1 then parts[0] else parts[0] + sep + Join(parts[1..], sep)
  }
}
