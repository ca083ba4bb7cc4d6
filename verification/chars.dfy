/** Character classes and small string helpers shared by the lexer, the
    tree and the text normaliser. */
module Chars {

  datatype Option<+T> = None | Some(value: T)

  /** Whitespace as the markup lexer sees it. */
  predicate IsSpace(c: char) {
    c == ' ' || c == '\t' || c == '\r' || c == '\n'
  }

  predicate IsAsciiLetter(c: char) {
    ('a' <= c <= 'z') || ('A' <= c <= 'Z')
  }

  predicate IsDigit(c: char) {
    '0' <= c <= '9'
  }

  /** Characters allowed in tag and attribute names (`prefix:local`, `data-x`, `a.b`). */
  predicate IsNameChar(c: char) {
    IsAsciiLetter(c) || IsDigit(c) || c == '-' || c == '_' || c == ':' || c == '.'
  }

  predicate IsName(s: string) {
    |s| > 0 && forall k :: 0 <= k < |s| ==> IsNameChar(s[k])
  }

  predicate IsQuote(c: char) {
    c == '"' || c == '\''
  }

  /** ASCII lower-casing of one character. */
  function LowerChar(c: char): (r: char)
    ensures IsAsciiLetter(c) ==> 'a' <= r <= 'z'
    ensures !IsAsciiLetter(c) ==> r == c
  {
    if 'A' <= c <= 'Z' then (c as int - 'A' as int + 'a' as int) as char else c
  }

  /** ASCII lower-casing of a string, used for case-insensitive tag names. */
  function Lower(s: string): (r: string)
    ensures |r| == |s|
    ensures forall k :: 0 <= k < |s| ==> r[k] == LowerChar(s[k])
  {
    if s == [] then [] else [LowerChar(s[0])] + Lower(s[1..])
  }

  /** Does `p` occur in `s` at index `i`?  Compared character by character
      from offset `k` of `p` onwards. */
  predicate MatchesFrom(s: string, i: nat, p: string, k: nat)
    decreases |p| - k
  {
    k >= |p| || (i + k < |s| && s[i + k] == p[k] && MatchesFrom(s, i, p, k + 1))
  }

  predicate At(s: string, i: nat, p: string) {
    i + |p| <= |s| && MatchesFrom(s, i, p, 0)
  }

  lemma {:induction false} MatchesFromSlice(s: string, i: nat, p: string, k: nat)
    requires k <= |p| && i + |p| <= |s|
    ensures MatchesFrom(s, i, p, k) <==> s[i + k..i + |p|] == p[k..]
    decreases |p| - k
  {
    if k < |p| {
      MatchesFromSlice(s, i, p, k + 1);
      assert s[i + k..i + |p|] == [s[i + k]] + s[i + k + 1..i + |p|];
      assert p[k..] == [p[k]] + p[k + 1..];
    }
  }

  /** `At` is exactly "the slice of `s` at `i` is `p`". */
  lemma AtIsSlice(s: string, i: nat, p: string)
    ensures At(s, i, p) <==> i + |p| <= |s| && s[i..i + |p|] == p
  {
    if i + |p| <= |s| {
      MatchesFromSlice(s, i, p, 0);
    }
  }

  /** The first index `j >= i` at which `p` occurs in `s`, if any. */
  function Find(s: string, i: nat, p: string): (r: Option<nat>)
    requires |p| > 0
    ensures r.Some? ==> i <= r.value && r.value + |p| <= |s| && At(s, r.value, p)
    ensures r.Some? ==> forall j :: i <= j < r.value ==> !At(s, j, p)
    ensures r.None? ==> forall j :: i <= j ==> !At(s, j, p)
    decreases |s| - i
  {
    if i + |p| > |s| then
      assert forall j :: i <= j ==> !At(s, j, p) by {
        forall j | i <= j ensures !At(s, j, p) { AtIsSlice(s, j, p); }
      }
      None
    else if At(s, i, p) then
      AtIsSlice(s, i, p);
      Some(i)
    else Find(s, i + 1, p)
  }
}
