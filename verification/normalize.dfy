/** The whitespace normaliser the markup tests compare text with: line
    breaks and tabs become spaces, the ends are trimmed, and runs of spaces
    are folded into one by replacing double spaces until none is left. */
module Normalizing {
  import opened Chars

  /** `char.IsWhiteSpace`: what `string.Trim()` removes. */
  predicate IsWhiteSpace(c: char) {
    ('\t' <= c <= '\r') || c == ' ' || c == '\U{0085}' || c == '\U{00A0}' || c == '\U{1680}' ||
    ('\U{2000}' <= c <= '\U{200A}') || c == '\U{2028}' || c == '\U{2029}' || c == '\U{202F}' ||
    c == '\U{205F}' || c == '\U{3000}'
  }

  /** `s.Replace(a, b)` for single characters. */
  function ReplaceChar(s: string, a: char, b: char): (r: string)
    ensures |r| == |s|
    ensures forall k :: 0 <= k < |s| ==> r[k] == if s[k] == a then b else s[k]
  {
    seq(|s|, k requires 0 <= k < |s| => if s[k] == a then b else s[k])
  }

  /** Every character of `s[lo..hi]` is white space. */
  predicate WhiteSpaceBetween(s: string, lo: nat, hi: nat)
    requires lo <= hi <= |s|
  {
    forall k :: lo <= k < hi ==> IsWhiteSpace(s[k])
  }

  function TrimStart(s: string): (r: string)
    ensures r == [] || !IsWhiteSpace(r[0])
    ensures |r| <= |s| && r == s[|s| - |r|..]
    ensures WhiteSpaceBetween(s, 0, |s| - |r|)
  {
    if s != [] && IsWhiteSpace(s[0]) then
      var r := TrimStart(s[1..]);
      assert forall k :: 1 <= k < |s| - |r| ==> s[k] == s[1..][k - 1];
      r
    else s
  }

  function TrimEnd(s: string): (r: string)
    ensures r == [] || !IsWhiteSpace(r[|r| - 1])
    ensures |r| <= |s| && r == s[..|r|]
    ensures WhiteSpaceBetween(s, |r|, |s|)
  {
    if s != [] && IsWhiteSpace(s[|s| - 1]) then TrimEnd(s[..|s| - 1]) else s
  }

  /** `s.Trim()`. */
  function Trim(s: string): (r: string)
    ensures r == [] || (!IsWhiteSpace(r[0]) && !IsWhiteSpace(r[|r| - 1]))
    ensures exists i, j :: (0 <= i <= j <= |s| && r == s[i..j] &&
                            WhiteSpaceBetween(s, 0, i) && WhiteSpaceBetween(s, j, |s|))
  {
    var t := TrimStart(s);
    var r := TrimEnd(t);
    TrimParts(s, t, r);
    r
  }

  /** Trimming the start and then the end takes a slice of `s` between two
      runs of white space. */
  lemma TrimParts(s: string, t: string, r: string)
    requires |t| <= |s| && t == s[|s| - |t|..] && WhiteSpaceBetween(s, 0, |s| - |t|)
    requires |r| <= |t| && r == t[..|r|] && WhiteSpaceBetween(t, |r|, |t|)
    ensures exists i, j :: (0 <= i <= j <= |s| && r == s[i..j] &&
                            WhiteSpaceBetween(s, 0, i) && WhiteSpaceBetween(s, j, |s|))
  {
    var i := |s| - |t|;
    var j := i + |r|;
    SliceOfSuffix(s, i, t, r);
    SuffixWhiteSpace(s, i, t, |r|);
    assert r == s[i..j] && WhiteSpaceBetween(s, 0, i) && WhiteSpaceBetween(s, j, |s|);
  }

  lemma SliceOfSuffix(s: string, i: nat, t: string, r: string)
    requires i <= |s| && t == s[i..] && |r| <= |t| && r == t[..|r|]
    ensures r == s[i..i + |r|]
  {
  }

  lemma SuffixWhiteSpace(s: string, i: nat, t: string, n: nat)
    requires i <= |s| && t == s[i..] && n <= |t| && WhiteSpaceBetween(t, n, |t|)
    ensures WhiteSpaceBetween(s, i + n, |s|)
  {
    forall k | i + n <= k < |s| ensures IsWhiteSpace(s[k]) {
      assert s[k] == t[k - i];
    }
  }

  /** `s.Replace("  ", " ")`: left to right, without overlaps, so three
      spaces become two. */
  function ReplaceDouble(s: string): (r: string)
    ensures |r| <= |s|
  {
    if |s| >= 2 && s[0] == ' ' && s[1] == ' ' then " " + ReplaceDouble(s[2..])
    else if s == [] then []
    else [s[0]] + ReplaceDouble(s[1..])
  }

  predicate HasDouble(s: string) {
    exists k :: 0 <= k < |s| - 1 && s[k] == ' ' && s[k + 1] == ' '
  }

  /** Each run of spaces folded into one space: what the loop reaches. */
  function Collapse(s: string): string {
    if |s| >= 2 && s[0] == ' ' && s[1] == ' ' then Collapse(s[1..])
    else if s == [] then []
    else [s[0]] + Collapse(s[1..])
  }

  /** The first stage of `Normalize`: line breaks and tabs become spaces. */
  function Blanked(s: string): (r: string)
    ensures |r| == |s|
    ensures '\r' !in r && '\n' !in r && '\t' !in r
  {
    ReplaceChar(ReplaceChar(ReplaceChar(s, '\r', ' '), '\n', ' '), '\t', ' ')
  }

  /** The specification of `Normalize`. */
  function Normalized(text: string): string {
    Collapse(Trim(Blanked(text)))
  }

  // ----- lemmas -----

  lemma {:induction false} ReplaceDoubleShrinks(s: string)
    requires HasDouble(s)
    ensures |ReplaceDouble(s)| < |s|
    decreases |s|
  {
    if |s| >= 2 && s[0] == ' ' && s[1] == ' ' {
    } else {
      var k :| 0 <= k < |s| - 1 && s[k] == ' ' && s[k + 1] == ' ';
      assert s[1..][k - 1] == ' ' && s[1..][k] == ' ';
      ReplaceDoubleShrinks(s[1..]);
    }
  }

  /** Folding runs of spaces does not care whether double spaces were
      replaced first (also behind a leading space). */
  lemma {:induction false} CollapseReplaceDouble(t: string)
    ensures Collapse(ReplaceDouble(t)) == Collapse(t)
    ensures Collapse(" " + ReplaceDouble(t)) == Collapse(" " + t)
    decreases |t|
  {
    if |t| >= 2 && t[0] == ' ' && t[1] == ' ' {
      var t2 := t[2..];
      CollapseReplaceDouble(t2);
      assert ReplaceDouble(t) == " " + ReplaceDouble(t2);
      assert t[1..] == " " + t2;
      assert (" " + t)[1..] == t;
      assert (" " + ReplaceDouble(t))[1..] == ReplaceDouble(t);
    } else if t != [] && t[0] == ' ' {
      var t1 := t[1..];
      CollapseReplaceDouble(t1);
      assert ReplaceDouble(t) == " " + ReplaceDouble(t1);
      assert t == " " + t1;
      assert (" " + t)[1..] == t;
      assert (" " + ReplaceDouble(t))[1..] == ReplaceDouble(t);
    } else if t != [] {
      var t1 := t[1..];
      CollapseReplaceDouble(t1);
      assert ReplaceDouble(t) == [t[0]] + ReplaceDouble(t1);
      assert (" " + t)[1..] == t;
      assert (" " + ReplaceDouble(t))[1..] == ReplaceDouble(t);
    }
  }

  /** Without a double space there is nothing to fold. */
  lemma {:induction false} CollapseNoDouble(s: string)
    requires !HasDouble(s)
    ensures Collapse(s) == s
    decreases |s|
  {
    if s != [] {
      assert !HasDouble(s[1..]) by {
        forall k | 0 <= k < |s[1..]| - 1 ensures !(s[1..][k] == ' ' && s[1..][k + 1] == ' ') {
          assert s[1..][k] == s[k + 1] && s[1..][k + 1] == s[k + 2];
        }
      }
      CollapseNoDouble(s[1..]);
    }
  }

  /** Folding keeps every character other than a space. */
  lemma {:induction false} CollapseChars(s: string, c: char)
    requires c != ' '
    ensures c in Collapse(s) <==> c in s
    decreases |s|
  {
    if s != [] {
      CollapseChars(s[1..], c);
      assert s == [s[0]] + s[1..];
    }
  }

  lemma {:induction false} CollapseHead(s: string)
    requires s != [] && s[0] != ' '
    ensures Collapse(s) != [] && Collapse(s)[0] == s[0]
  {
  }

  lemma {:induction false} CollapseLast(s: string)
    requires s != [] && s[|s| - 1] != ' '
    ensures Collapse(s) != [] && Collapse(s)[|Collapse(s)| - 1] == s[|s| - 1]
    decreases |s|
  {
    if |s| > 1 {
      CollapseLast(s[1..]);
    }
  }

  /** Folding leaves no double space behind. */
  lemma {:induction false} CollapseHasNoDouble(s: string)
    ensures !HasDouble(Collapse(s))
    decreases |s|
  {
    if |s| >= 2 && s[0] == ' ' && s[1] == ' ' {
      CollapseHasNoDouble(s[1..]);
    } else if s != [] {
      var rest := Collapse(s[1..]);
      CollapseHasNoDouble(s[1..]);
      if s[0] == ' ' && |s| >= 2 {
        CollapseHead(s[1..]);
      }
      var r := [s[0]] + rest;
      forall k | 0 <= k < |r| - 1 ensures !(r[k] == ' ' && r[k + 1] == ' ') {
        if k > 0 {
          assert r[k] == rest[k - 1] && r[k + 1] == rest[k];
        }
      }
    }
  }

  /** Folding works piece by piece unless a space ends the first piece and
      another begins the second. */
  lemma {:induction false} CollapseConcat(x: string, y: string)
    requires x == [] || y == [] || x[|x| - 1] != ' ' || y[0] != ' '
    ensures Collapse(x + y) == Collapse(x) + Collapse(y)
    decreases |x|
  {
    if x == [] {
      assert x + y == y;
    } else {
      var t := x[1..];
      assert (x + y)[0] == x[0] && (x + y)[1..] == t + y;
      if t != [] {
        assert (x + y)[1] == t[0] && t[|t| - 1] == x[|x| - 1];
        CollapseConcat(t, y);
      } else {
        assert x == [x[0]] && Collapse(x) == [x[0]] + Collapse([]);
        assert y != [] ==> (x + y)[1] == y[0];
      }
    }
  }

  /** Trimming adds no character. */
  lemma TrimKeepsOut(s: string, c: char)
    requires c !in s
    ensures c !in Trim(s)
  {
    var i, j :| 0 <= i <= j <= |s| && Trim(s) == s[i..j];
  }

  /** Trimming and folding add no character other than a space. */
  lemma FoldedKeepsOut(m: string, c: char)
    requires c != ' ' && c !in m
    ensures c !in Collapse(Trim(m))
  {
    TrimKeepsOut(m, c);
    CollapseChars(Trim(m), c);
  }

  /** What the text tests rely on: a normalised text has no line break, no
      tab, no double space and no white space at either end. */
  lemma NormalizedShape(text: string)
    ensures var r := Normalized(text);
      !HasDouble(r) && '\r' !in r && '\n' !in r && '\t' !in r &&
      (r == [] || (!IsWhiteSpace(r[0]) && !IsWhiteSpace(r[|r| - 1])))
  {
    var m := Blanked(text);
    var t := Trim(m);
    CollapseHasNoDouble(t);
    FoldedKeepsOut(m, '\r');
    FoldedKeepsOut(m, '\n');
    FoldedKeepsOut(m, '\t');
    if t != [] {
      CollapseHead(t);
      CollapseLast(t);
    }
  }

  /** `Normalize` as the test helper writes it: the replacement loop runs
      until no double space is left, and the result is the folded text. */
  method Normalize(text: string) returns (r: string)
    ensures r == Normalized(text)
    ensures !HasDouble(r)
  {
    r := ReplaceChar(ReplaceChar(ReplaceChar(text, '\r', ' '), '\n', ' '), '\t', ' ');
    r := Trim(r);
    ghost var trimmed := r;
    while Find(r, 0, "  ").Some?
      invariant Collapse(r) == Collapse(trimmed)
      decreases |r|
    {
      DoubleFound(r);
      ReplaceDoubleShrinks(r);
      CollapseReplaceDouble(r);
      r := ReplaceDouble(r);
    }
    NoDoubleNotFound(r);
    CollapseNoDouble(r);
  }

  lemma DoubleFound(s: string)
    requires Find(s, 0, "  ").Some?
    ensures HasDouble(s)
  {
    var k := Find(s, 0, "  ").value;
    AtIsSlice(s, k, "  ");
    assert s[k..k + 2][0] == s[k] && s[k..k + 2][1] == s[k + 1];
  }

  lemma NoDoubleNotFound(s: string)
    requires Find(s, 0, "  ").None?
    ensures !HasDouble(s)
  {
    forall k | 0 <= k < |s| - 1 && s[k] == ' ' && s[k + 1] == ' ' ensures false {
      assert s[k..k + 2] == "  ";
      AtIsSlice(s, k, "  ");
    }
  }
}
