/** The key every country name is compared under: `s.trim().toLowerCase()`.
    Trimming follows ECMAScript exactly (its WhiteSpace and LineTerminator
    code points); lower-casing is modelled for ASCII letters only. */
module Normalize {

  /** The code points `String.prototype.trim` strips: ECMAScript WhiteSpace
      (TAB, VT, FF, ZWNBSP and the Unicode space separators) and
      LineTerminator (LF, CR, LS, PS). */
  predicate IsWhitespace(c: char) {
    || c == '\t' || c == '\n' || c == '\U{000B}' || c == '\U{000C}' || c == '\r'
    || c == ' ' || c == '\U{00A0}' || c == '\U{1680}'
    || ('\U{2000}' <= c <= '\U{200A}')
    || c == '\U{2028}' || c == '\U{2029}' || c == '\U{202F}' || c == '\U{205F}'
    || c == '\U{3000}' || c == '\U{FEFF}'
  }

  /** `s` with its leading whitespace removed. */
  function TrimStart(s: string): string {
    if |s| > 0 && IsWhitespace(s[0]) then TrimStart(s[1..]) else s
  }

  /** `s` with its trailing whitespace removed. */
  function TrimEnd(s: string): string {
    if |s| > 0 && IsWhitespace(s[|s| - 1]) then TrimEnd(s[..|s| - 1]) else s
  }

  /** `String.prototype.trim`. */
  function Trim(s: string): string {
    TrimEnd(TrimStart(s))
  }

  /** ASCII `toLowerCase` of one character: `A`..`Z` become `a`..`z`, every
      other character is left as it is. */
  function LowerChar(c: char): char {
    if 'A' <= c <= 'Z' then (c as int + 32) as char else c
  }

  /** `toLowerCase`, character by character. */
  function ToLower(s: string): string {
    seq(|s|, k requires 0 <= k < |s| => LowerChar(s[k]))
  }

  /** The comparison key of a country name: `s.trim().toLowerCase()`. */
  function Norm(s: string): string {
    ToLower(Trim(s))
  }

  /** `s[i..j]` is what is left of `s` once whitespace before `i` and after
      `j` is removed. */
  ghost predicate IsTrimSlice(s: string, i: int, j: int) {
    && 0 <= i <= j <= |s|
    && (forall k :: 0 <= k < i ==> IsWhitespace(s[k]))
    && (forall k :: j <= k < |s| ==> IsWhitespace(s[k]))
  }

  /** Trimming the start leaves the longest suffix that does not start with
      whitespace. */
  lemma {:induction false} TrimStartSpec(s: string)
    ensures |TrimStart(s)| <= |s| && TrimStart(s) == s[|s| - |TrimStart(s)|..]
    ensures forall k :: 0 <= k < |s| - |TrimStart(s)| ==> IsWhitespace(s[k])
    ensures |TrimStart(s)| > 0 ==> !IsWhitespace(TrimStart(s)[0])
    decreases |s|
  {
    if |s| > 0 && IsWhitespace(s[0]) {
      TrimStartSpec(s[1..]);
    }
  }

  /** Trimming the end leaves the longest prefix that does not end with
      whitespace. */
  lemma {:induction false} TrimEndSpec(s: string)
    ensures |TrimEnd(s)| <= |s| && TrimEnd(s) == s[..|TrimEnd(s)|]
    ensures forall k :: |TrimEnd(s)| <= k < |s| ==> IsWhitespace(s[k])
    ensures |TrimEnd(s)| > 0 ==> !IsWhitespace(TrimEnd(s)[|TrimEnd(s)| - 1])
    decreases |s|
  {
    if |s| > 0 && IsWhitespace(s[|s| - 1]) {
      TrimEndSpec(s[..|s| - 1]);
    }
  }

  /** `trim` removes exactly the surrounding whitespace: its result is a
      slice of `s` with only whitespace outside it, and it neither starts nor
      ends with whitespace. */
  lemma TrimSpec(s: string)
    ensures exists i, j :: IsTrimSlice(s, i, j) && Trim(s) == s[i..j]
    ensures |Trim(s)| > 0 ==> !IsWhitespace(Trim(s)[0]) && !IsWhitespace(Trim(s)[|Trim(s)| - 1])
  {
    var t := TrimStart(s);
    var r := TrimEnd(t);
    TrimStartSpec(s);
    TrimEndSpec(t);
    var i := |s| - |t|;
    assert r == s[i..i + |r|];
    assert forall k :: i + |r| <= k < |s| ==> s[k] == t[k - i];
    assert IsTrimSlice(s, i, i + |r|);
  }

  /** `toLowerCase` keeps the length, lowers every character, and leaves no
      ASCII upper-case letter behind. */
  lemma ToLowerSpec(s: string)
    ensures |ToLower(s)| == |s|
    ensures forall k :: 0 <= k < |s| ==> ToLower(s)[k] == LowerChar(s[k])
    ensures forall k :: 0 <= k < |s| ==> !('A' <= ToLower(s)[k] <= 'Z')
  {
  }

  /** Lower-casing never turns whitespace into non-whitespace or back. */
  lemma LowerCharKeepsWhitespace(c: char)
    ensures IsWhitespace(LowerChar(c)) == IsWhitespace(c)
  {
  }

  /** A string that neither starts nor ends with whitespace is its own trim. */
  lemma TrimOfTrimmed(s: string)
    requires |s| > 0 ==> !IsWhitespace(s[0]) && !IsWhitespace(s[|s| - 1])
    ensures Trim(s) == s
  {
    assert TrimStart(s) == s;
  }

  /** Normalising twice is normalising once: a key is its own key, so
      comparing `Norm(a)` with `Norm(b)` is unaffected by feeding either
      side an already normalised name. */
  lemma NormIdempotent(s: string)
    ensures Norm(Norm(s)) == Norm(s)
  {
    var t := Trim(s);
    var l := ToLower(t);
    TrimSpec(s);
    ToLowerSpec(t);
    ToLowerSpec(l);
    if |l| > 0 {
      LowerCharKeepsWhitespace(t[0]);
      LowerCharKeepsWhitespace(t[|t| - 1]);
    }
    TrimOfTrimmed(l);
    forall k | 0 <= k < |l|
      ensures LowerChar(l[k]) == l[k]
    {
    }
    assert ToLower(l) == l;
  }
}
