/**
 * The whitespace shared by the regular-expression class `\s` and by
 * `String.prototype.trim` in ECMAScript (WhiteSpace and LineTerminator),
 * and `trim` itself. Strings are sequences of Unicode scalar values.
 */
module JsText {

  predicate IsWs(c: char) {
    c == ' ' || c == '\t' || c == '\n' || c == '\r' || c == '\U{000B}' || c == '\U{000C}'
    || c == '\U{00A0}' || c == '\U{1680}' || ('\U{2000}' <= c <= '\U{200A}')
    || c == '\U{2028}' || c == '\U{2029}' || c == '\U{202F}' || c == '\U{205F}'
    || c == '\U{3000}' || c == '\U{FEFF}'
  }

  /** Every character of s[lo..hi] is whitespace. */
  predicate AllWs(s: string, lo: nat, hi: nat)
    requires lo <= hi <= |s|
  {
    forall k :: lo <= k < hi ==> IsWs(s[k])
  }

  /**
   * Letters A-Z folded to a-z; every other character unchanged. This is not
   * the whole folding of a non-Unicode `/i` pattern, which also pairs
   * non-ASCII letters such as U+00E9 and U+00C9; it decides the same as that
   * folding only against the tag letters j, s, o and n, each of which is
   * matched by itself and its ASCII capital and by nothing else (not by
   * U+017F LATIN SMALL LETTER LONG S, whose upper case is `S`).
   */
  function AsciiLower(c: char): (r: char)
    ensures 'A' <= c <= 'Z' ==> r as int == c as int + 32
    ensures !('A' <= c <= 'Z') ==> r == c
  {
    if 'A' <= c <= 'Z' then (c as int + 32) as char else c
  }

  /** Each tag letter of "json" is the folding of exactly itself and its ASCII capital. */
  lemma TagLetterFolding(c: char)
    ensures AsciiLower(c) == 'j' <==> c == 'j' || c == 'J'
    ensures AsciiLower(c) == 's' <==> c == 's' || c == 'S'
    ensures AsciiLower(c) == 'o' <==> c == 'o' || c == 'O'
    ensures AsciiLower(c) == 'n' <==> c == 'n' || c == 'N'
  {
  }

  function TrimStart(s: string): (r: string)
    ensures |r| <= |s| && r == s[|s| - |r|..]
    ensures AllWs(s, 0, |s| - |r|)
    ensures r == [] || !IsWs(r[0])
  {
    if |s| > 0 && IsWs(s[0]) then TrimStart(s[1..]) else s
  }

  function TrimEnd(s: string): (r: string)
    ensures |r| <= |s| && r == s[..|r|]
    ensures AllWs(s, |r|, |s|)
    ensures r == [] || !IsWs(r[|r| - 1])
  {
    if |s| > 0 && IsWs(s[|s| - 1]) then TrimEnd(s[..|s| - 1]) else s
  }

  /** `s.trim()`: the longest infix of s that neither starts nor ends with whitespace. */
  function Trim(s: string): string {
    TrimEnd(TrimStart(s))
  }

  /** trim removes only whitespace from the two ends, and no more than it has to. */
  lemma TrimIsInfix(s: string)
    ensures exists a, b :: 0 <= a <= b <= |s| && Trim(s) == s[a..b] && AllWs(s, 0, a) && AllWs(s, b, |s|)
    ensures Trim(s) == [] || (!IsWs(Trim(s)[0]) && !IsWs(Trim(s)[|Trim(s)| - 1]))
  {
    var t := TrimStart(s);
    var e := TrimEnd(t);
    var a := |s| - |t|;
    var b := a + |e|;
    assert t == s[a..] && e == t[..|e|] && Trim(s) == e;
    assert e == s[a..b];
    assert AllWs(s, b, |s|) by {
      forall k | b <= k < |s| ensures IsWs(s[k]) {
        assert s[k] == t[k - a];
      }
    }
    if e != [] {
      assert e[0] == t[0];
    }
  }

  /** A string that neither starts nor ends with whitespace is its own trim. */
  lemma TrimUnchanged(s: string)
    requires s == [] || (!IsWs(s[0]) && !IsWs(s[|s| - 1]))
    ensures Trim(s) == s
  {
  }

  /** trim yields the empty string exactly for an all-whitespace string. */
  lemma {:induction false} TrimEmpty(s: string)
    ensures Trim(s) == [] <==> AllWs(s, 0, |s|)
  {
    var t := TrimStart(s);
    if !AllWs(s, 0, |s|) {
      assert t != [];
    }
  }
}
