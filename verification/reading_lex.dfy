/** Reading written markup back, first step: the strict lexer cuts the flat
    markup of a writable tree into exactly that tree's tokens, and the
    attribute lexer reads a written start tag back into its attributes. */
module MarkupReading {
  import opened Chars
  import opened Attributes
  import opened AttributeMaps
  import opened Tokenizer
  import opened Tree
  import opened Writing

  /** The tokens the markup of a node consists of. */
  function NodeTokens(n: Node): seq<Token>
    decreases n, 1
  {
    match n
    case Element(t, a, ch) =>
      [StartToken(t, false, StartMarkup(t, a))] + SeqTokens(ch) + [EndToken(t, EndMarkup(t))]
    case Text(x) => [TextToken(x)]
    case CData(x) => [CDataToken(x)]
    case Comment(x) => [CommentToken(x)]
    case Instruction(x) => [InstructionToken(x)]
    case Control(x) => [ControlToken(x)]
  }

  function SeqTokens(ns: seq<Node>): seq<Token>
    decreases ns, 0
  {
    if ns == [] then [] else NodeTokens(ns[0]) + SeqTokens(ns[1..])
  }

  // ----- strings -----

  lemma SliceOfSlice(s: string, a: nat, b: nat, c: nat, d: nat)
    requires a <= b <= |s| && c <= d <= b - a
    ensures s[a..b][c..d] == s[a + c..a + d]
  {
    assert forall k :: 0 <= k < d - c ==> s[a..b][c..d][k] == s[a + c + k];
  }

  lemma SplitSlice(s: string, i: nat, a: string, b: string)
    requires i + |a| + |b| <= |s| && s[i..i + |a| + |b|] == a + b
    ensures s[i..i + |a|] == a && s[i + |a|..i + |a| + |b|] == b
  {
    assert s[i..i + |a|] == (a + b)[..|a|];
    assert s[i + |a|..i + |a| + |b|] == (a + b)[|a|..];
  }

  /** Matching inside a known stretch of the input is matching inside that stretch. */
  lemma AtShift(s: string, j: nat, t: string, k: nat, p: string)
    requires j + |t| <= |s| && s[j..j + |t|] == t && k + |p| <= |t|
    ensures At(s, j + k, p) <==> At(t, k, p)
  {
    AtIsSlice(s, j + k, p);
    AtIsSlice(t, k, p);
    SliceOfSlice(s, j, j + |t|, k, k + |p|);
  }

  lemma NotAt(s: string, i: nat, p: string, k: nat)
    requires k < |p| && i + k < |s| && s[i + k] != p[k]
    ensures !At(s, i, p)
  {
    AtIsSlice(s, i, p);
    if i + |p| <= |s| {
      assert s[i..i + |p|][k] == s[i + k];
    }
  }

  /** The first `close` after `x + close` is the one at its end when
      `close` cannot occur inside `x`. */
  lemma FindClose(s: string, j: nat, x: string, close: string)
    requires |close| > 0 && ClosesOnlyAtEnd(x, close)
    requires j + |x| + |close| <= |s| && s[j..j + |x| + |close|] == x + close
    ensures Find(s, j, close) == Some(j + |x|) && s[j..j + |x|] == x
  {
    var e := j + |x|;
    SplitSlice(s, j, x, close);
    AtIsSlice(s, e, close);
    forall k | j <= k < e ensures !At(s, k, close) {
      AtShift(s, j, x + close, k - j, close);
    }
  }

  /** `open x close` at `i` is found as such when `close` cannot occur
      inside `x`. */
  lemma DelimitedAt(s: string, i: nat, open: string, x: string, close: string)
    requires |close| > 0 && ClosesOnlyAtEnd(x, close)
    requires i + |open| + |x| + |close| <= |s|
    requires s[i..i + |open| + |x| + |close|] == open + x + close
    ensures Delimited(s, i, open, close) == Some((x, i + |open| + |x| + |close|))
  {
    assert open + x + close == open + (x + close);
    SplitSlice(s, i, open, x + close);
    AtIsSlice(s, i, open);
    FindClose(s, i + |open|, x, close);
  }

  // ----- one token -----

  lemma NextText(s: string, i: nat, x: string)
    requires x != [] && '<' !in x
    requires i + |x| <= |s| && s[i..i + |x|] == x
    requires i + |x| == |s| || s[i + |x|] == '<'
    ensures Next(s, i, Xml) == (TextToken(x), i + |x|)
  {
    assert forall k :: i <= k < i + |x| ==> s[k] == x[k - i];
    assert s[i] == x[0];
  }

  lemma NameEndAt(s: string, i: nat, t: string)
    requires IsName(t) && i + |t| < |s| && s[i..i + |t|] == t && !IsNameChar(s[i + |t|])
    ensures NameEnd(s, i) == i + |t|
  {
    assert forall k :: i <= k < i + |t| ==> s[k] == t[k - i];
  }

  lemma FindQuote(s: string, m: nat, v: string, q: char)
    requires q !in v && m + |v| < |s| && s[m..m + |v|] == v && s[m + |v|] == q
    ensures Find(s, m, [q]) == Some(m + |v|)
  {
    AtIsSlice(s, m + |v|, [q]);
    forall p | m <= p < m + |v| ensures !At(s, p, [q]) {
      AtIsSlice(s, p, [q]);
      assert s[p] == v[p - m];
    }
  }

  /** `name=` followed by a quoted value that does not hold its quote. */
  lemma ReadQuoted(s: string, i: nat, n: string, q: char, v: string, d: Dialect)
    requires IsName(n) && IsQuote(q) && q !in v
    requires i + |n| + 3 + |v| <= |s| && s[i..i + |n|] == n
    requires s[i + |n|] == '=' && s[i + |n| + 1] == q && s[i + |n| + 2 + |v|] == q
    requires s[i + |n| + 2..i + |n| + 2 + |v|] == v
    ensures ReadAttribute(s, i, d) == (Some(Attribute(n, Some(v))), i + |n| + 3 + |v|)
  {
    NameEndAt(s, i, n);
    SkipNone(s, i + |n|);
    SkipNone(s, i + |n| + 1);
    FindQuote(s, i + |n| + 2, v, q);
  }

  lemma SkipNone(s: string, i: nat)
    requires i < |s| && !IsSpace(s[i])
    ensures SkipSpaces(s, i) == i
  {
  }

  lemma QuotedParts(s: string, k: nat, n: string, q: char, v: string)
    requires k + |n| + 4 + |v| <= |s|
    requires s[k..k + |n| + 4 + |v|] == " " + n + "=" + [q] + v + [q]
    ensures s[k] == ' ' && s[k + 1..k + 1 + |n|] == n && s[k + 1 + |n|] == '=' && s[k + 2 + |n|] == q
    ensures s[k + 3 + |n|..k + 3 + |n| + |v|] == v && s[k + 3 + |n| + |v|] == q
  {
    var w := " " + n + "=" + [q] + v + [q];
    var t := s[k..k + |n| + 4 + |v|];
    assert t[1..1 + |n|] == n;
    assert t[3 + |n|..3 + |n| + |v|] == v;
    SliceOfSlice(s, k, k + |n| + 4 + |v|, 1, 1 + |n|);
    SliceOfSlice(s, k, k + |n| + 4 + |v|, 3 + |n|, 3 + |n| + |v|);
    assert s[k] == t[0] == w[0];
    assert s[k + 1 + |n|] == t[1 + |n|] == w[1 + |n|];
    assert s[k + 2 + |n|] == t[2 + |n|] == w[2 + |n|];
    assert s[k + 3 + |n| + |v|] == t[3 + |n| + |v|] == w[3 + |n| + |v|];
  }

  /** A written attribute ` name="value"` (or with single quotes) is read
      back as that name and value, in either dialect. */
  lemma ReadWrittenAttribute(s: string, k: nat, a: Attribute, d: Dialect)
    requires IsName(a.name) && !('"' in ValueText(a) && '\'' in ValueText(a))
    requires k + |RenderAttribute(a)| <= |s| && s[k..k + |RenderAttribute(a)|] == RenderAttribute(a)
    ensures ReadAttribute(s, k + 1, d) ==
      (Some(Attribute(a.name, Some(ValueText(a)))), k + 1 + |a.name| + 3 + |ValueText(a)|)
  {
    var v := ValueText(a);
    var q := if '"' in v then '\'' else '"';
    AttributeParts(s, k, a, q, v);
    ReadQuoted(s, k + 1, a.name, q, v, d);
  }

  lemma AttributeParts(s: string, k: nat, a: Attribute, q: char, v: string)
    requires IsName(a.name) && !('"' in ValueText(a) && '\'' in ValueText(a))
    requires k + |RenderAttribute(a)| <= |s| && s[k..k + |RenderAttribute(a)|] == RenderAttribute(a)
    requires v == ValueText(a) && q == if '"' in v then '\'' else '"'
    ensures IsQuote(q) && q !in v && k + |RenderAttribute(a)| == k + 1 + |a.name| + 3 + |v|
    ensures k + 1 + |a.name| + 3 + |v| <= |s| && s[k + 1..k + 1 + |a.name|] == a.name
    ensures s[k + 1 + |a.name|] == '=' && s[k + 1 + |a.name| + 1] == q && s[k + 1 + |a.name| + 2 + |v|] == q
    ensures s[k + 1 + |a.name| + 2..k + 1 + |a.name| + 2 + |v|] == v
  {
    assert RenderAttribute(a) == " " + a.name + "=" + [q] + v + [q];
    QuotedParts(s, k, a.name, q, v);
  }

  lemma WrittenAttributeStart(s: string, k: nat, a: Attribute)
    requires IsName(a.name)
    requires k + |RenderAttribute(a)| <= |s| && s[k..k + |RenderAttribute(a)|] == RenderAttribute(a)
    ensures k + 1 < |s| && s[k] == ' ' && IsNameChar(s[k + 1])
  {
    var v := ValueText(a);
    var q := if '"' in v then '\'' else '"';
    assert RenderAttribute(a) == " " + a.name + "=" + [q] + v + [q];
    QuotedParts(s, k, a.name, q, v);
    assert s[k + 1] == s[k + 1..k + 1 + |a.name|][0];
  }

  predicate AttributesWritable(a: seq<Attribute>) {
    forall k :: 0 <= k < |a| ==>
      IsName(a[k].name) && !('"' in ValueText(a[k]) && '\'' in ValueText(a[k]))
  }

  /** Where a rendered attribute list starts: a space, then a name. */
  lemma RenderAttributesHead(a: seq<Attribute>)
    requires AttributesWritable(a) && a != []
    ensures |RenderAttributes(a)| >= 2 && RenderAttributes(a)[0] == ' '
    ensures IsNameChar(RenderAttributes(a)[1])
  {
    assert RenderAttributes(a) == RenderAttribute(a[0]) + RenderAttributes(a[1..]);
    var v := ValueText(a[0]);
    var q := if '"' in v then '\'' else '"';
    assert RenderAttribute(a[0]) == " " + a[0].name + "=" + [q] + v + [q];
    assert RenderAttribute(a[0])[1] == a[0].name[0];
  }

  lemma AtConcat(s: string, j: nat, x: string, y: string)
    requires At(s, j, x + y)
    ensures At(s, j, x) && At(s, j + |x|, y)
  {
    AtIsSlice(s, j, x + y);
    SplitSlice(s, j, x, y);
    AtIsSlice(s, j, x);
    AtIsSlice(s, j + |x|, y);
  }

  /** The attributes `a` are written one after the other from `j` on. */
  predicate WrittenAt(s: string, j: nat, a: seq<Attribute>)
    decreases |a|
  {
    a == [] || (At(s, j, RenderAttribute(a[0])) && WrittenAt(s, j + |RenderAttribute(a[0])|, a[1..]))
  }

  lemma {:induction false} SliceWritten(s: string, j: nat, a: seq<Attribute>)
    requires j + |RenderAttributes(a)| <= |s| && s[j..j + |RenderAttributes(a)|] == RenderAttributes(a)
    ensures WrittenAt(s, j, a)
    decreases |a|
  {
    if a != [] {
      var x, y := RenderAttribute(a[0]), RenderAttributes(a[1..]);
      SplitSlice(s, j, x, y);
      AtIsSlice(s, j, x);
      SliceWritten(s, j + |x|, a[1..]);
    }
  }

  lemma XmlTagEndStep(s: string, j: nat, x: Attribute, e: nat)
    requires j + 1 < |s| && s[j] == ' ' && IsNameChar(s[j + 1])
    requires ReadAttribute(s, j + 1, Xml) == (Some(x), e)
    ensures XmlTagEnd(s, j) == XmlTagEnd(s, e)
  {
    assert SkipSpaces(s, j + 1) == j + 1;
  }

  lemma ScanStep(s: string, j: nat, x: Attribute, e: nat, d: Dialect)
    requires j + 1 < |s| && s[j] == ' ' && IsNameChar(s[j + 1])
    requires ReadAttribute(s, j + 1, d) == (Some(x), e)
    ensures Scan(s, j, d) == [x] + Scan(s, e, d)
  {
  }

  /** A written attribute starts with a space and a name character and is
      read back whole. */
  lemma WrittenAttributeRead(s: string, k: nat, a: Attribute, d: Dialect)
    requires IsName(a.name) && !('"' in ValueText(a) && '\'' in ValueText(a))
    requires k + |RenderAttribute(a)| <= |s| && s[k..k + |RenderAttribute(a)|] == RenderAttribute(a)
    ensures k + 1 < |s| && s[k] == ' ' && IsNameChar(s[k + 1])
    ensures ReadAttribute(s, k + 1, d) ==
      (Some(Attribute(a.name, Some(ValueText(a)))), k + |RenderAttribute(a)|)
  {
    WrittenAttributeStart(s, k, a);
    ReadWrittenAttribute(s, k, a, d);
    RenderAttributeLength(a);
  }

  lemma RenderAttributeLength(a: Attribute)
    ensures |RenderAttribute(a)| == |a.name| + 4 + |ValueText(a)|
  {
  }

  /** One written attribute, as the attribute scan steps over it. */
  lemma ScanOverAttribute(s: string, k: nat, a: Attribute, d: Dialect)
    requires IsName(a.name) && !('"' in ValueText(a) && '\'' in ValueText(a))
    requires At(s, k, RenderAttribute(a))
    ensures Scan(s, k, d) == [Attribute(a.name, Some(ValueText(a)))] + Scan(s, k + |RenderAttribute(a)|, d)
  {
    AtIsSlice(s, k, RenderAttribute(a));
    var x := Attribute(a.name, Some(ValueText(a)));
    WrittenAttributeRead(s, k, a, d);
    ScanStep(s, k, x, k + |RenderAttribute(a)|, d);
  }

  /** The strict tag-end scan walks over a written attribute list to the `>`. */
  lemma WritableHead(a: seq<Attribute>)
    requires AttributesWritable(a) && a != []
    ensures IsName(a[0].name) && !('"' in ValueText(a[0]) && '\'' in ValueText(a[0]))
    ensures AttributesWritable(a[1..])
  {
  }

  lemma XmlTagEndAtClose(s: string, j: nat)
    requires j < |s| && s[j] == '>'
    ensures XmlTagEnd(s, j) == Some(j)
  {
    assert SkipSpaces(s, j) == j;
  }

  lemma XmlTagEndListStep(s: string, j: nat, a: Attribute, e: nat)
    requires IsName(a.name) && !('"' in ValueText(a) && '\'' in ValueText(a))
    requires At(s, j, RenderAttribute(a))
    requires XmlTagEnd(s, j + |RenderAttribute(a)|) == Some(e)
    ensures XmlTagEnd(s, j) == Some(e)
  {
    AtIsSlice(s, j, RenderAttribute(a));
    WrittenAttributeRead(s, j, a, Xml);
    XmlTagEndStep(s, j, Attribute(a.name, Some(ValueText(a))), j + |RenderAttribute(a)|);
  }

  lemma {:induction false} XmlTagEndOfAttributes(s: string, j: nat, a: seq<Attribute>)
    requires AttributesWritable(a)
    requires WrittenAt(s, j, a) && j + |RenderAttributes(a)| < |s|
    requires s[j + |RenderAttributes(a)|] == '>'
    ensures XmlTagEnd(s, j) == Some(j + |RenderAttributes(a)|)
    decreases |a|
  {
    if a == [] {
      assert |RenderAttributes(a)| == 0;
      XmlTagEndAtClose(s, j);
    } else {
      WritableHead(a);
      XmlTagEndOfAttributes(s, j + |RenderAttribute(a[0])|, a[1..]);
      XmlTagEndListStep(s, j, a[0], j + |RenderAttributes(a)|);
    }
  }

  /** The attribute scan reads a written attribute list back, bare names
      getting the empty value they were written with. */
  lemma {:induction false} ScanOfAttributes(s: string, j: nat, a: seq<Attribute>, d: Dialect)
    requires AttributesWritable(a)
    requires WrittenAt(s, j, a) && j + |RenderAttributes(a)| <= |s|
    ensures Scan(s, j, d) == Valuate(a) + Scan(s, j + |RenderAttributes(a)|, d)
    decreases |a|
  {
    if a == [] {
      assert |RenderAttributes(a)| == 0 && Valuate(a) == [];
    } else {
      WritableHead(a);
      var e := j + |RenderAttributes(a)|;
      ScanOfAttributes(s, j + |RenderAttribute(a[0])|, a[1..], d);
      ScanListStep(s, j, a[0], Valuate(a[1..]), e, d);
      assert Valuate(a) == [Attribute(a[0].name, Some(ValueText(a[0])))] + Valuate(a[1..]);
    }
  }

  lemma ScanListStep(s: string, j: nat, a: Attribute, v: seq<Attribute>, e: nat, d: Dialect)
    requires IsName(a.name) && !('"' in ValueText(a) && '\'' in ValueText(a))
    requires At(s, j, RenderAttribute(a)) && e <= |s|
    requires Scan(s, j + |RenderAttribute(a)|, d) == v + Scan(s, e, d)
    ensures Scan(s, j, d) == ([Attribute(a.name, Some(ValueText(a)))] + v) + Scan(s, e, d)
  {
    ScanOverAttribute(s, j, a, d);
  }

  /** Scanning from `i` and from `j` agree when no whitespace lies between. */
  lemma {:induction false} ScanSkips(s: string, i: nat, j: nat, d: Dialect)
    requires i <= j <= |s|
    requires forall k :: i <= k < j ==> !IsSpace(s[k])
    ensures Scan(s, i, d) == Scan(s, j, d)
    decreases j - i
  {
    if i < j && i + 1 < |s| {
      ScanSkips(s, i + 1, j, d);
    }
  }

  lemma ScanAtEnd(s: string, i: nat, d: Dialect)
    requires i <= |s| && i + 1 >= |s|
    ensures Scan(s, i, d) == []
  {
  }

  lemma StartMarkupParts(t: string, a: seq<Attribute>)
    requires IsName(t)
    ensures |StartMarkup(t, a)| == |t| + |RenderAttributes(a)| + 2
    ensures forall k :: 0 <= k < 1 + |t| ==> !IsSpace(StartMarkup(t, a)[k])
    ensures WrittenAt(StartMarkup(t, a), 1 + |t|, a)
  {
    var raw := StartMarkup(t, a);
    assert raw == "<" + t + RenderAttributes(a) + ">";
    assert forall k :: 1 <= k < 1 + |t| ==> raw[k] == t[k - 1];
    assert raw[1 + |t|..1 + |t| + |RenderAttributes(a)|] == RenderAttributes(a);
    SliceWritten(raw, 1 + |t|, a);
  }

  lemma ScanWrittenTag(raw: string, n: nat, a: seq<Attribute>, d: Dialect)
    requires AttributesWritable(a) && |raw| == n + |RenderAttributes(a)| + 2
    requires forall k :: 0 <= k < 1 + n ==> !IsSpace(raw[k])
    requires WrittenAt(raw, 1 + n, a)
    ensures Scan(raw, 0, d) == Valuate(a)
  {
    ScanSkips(raw, 0, 1 + n, d);
    ScanToClose(raw, 1 + n, a, d);
  }

  lemma ScanToClose(raw: string, j: nat, a: seq<Attribute>, d: Dialect)
    requires AttributesWritable(a) && |raw| == j + |RenderAttributes(a)| + 1
    requires WrittenAt(raw, j, a)
    ensures Scan(raw, j, d) == Valuate(a)
  {
    ScanOfAttributes(raw, j, a, d);
    ScanAtEnd(raw, j + |RenderAttributes(a)|, d);
    assert Valuate(a) + [] == Valuate(a);
  }

  /** The attributes of a written start tag are read back, in either dialect. */
  lemma ParseStartMarkup(t: string, a: seq<Attribute>, d: Dialect)
    requires IsName(t) && AttributesWritable(a)
    ensures ParseAttributes(StartMarkup(t, a), d) == Valuate(a)
  {
    StartMarkupParts(t, a);
    ScanWrittenTag(StartMarkup(t, a), |t|, a, d);
  }

  // ----- one node's tokens -----

  lemma AtPrefix(s: string, i: nat, x: string, y: string)
    requires At(s, i, x + y)
    ensures At(s, i, x) && i + |x| + |y| <= |s| && s[i..i + |x| + |y|] == x + y
  {
    AtConcat(s, i, x, y);
    AtIsSlice(s, i, x + y);
  }

  lemma AtChar(s: string, i: nat, p: string, k: nat)
    requires At(s, i, p) && k < |p|
    ensures i + k < |s| && s[i + k] == p[k]
  {
    AtIsSlice(s, i, p);
    assert s[i..i + |p|][k] == s[i + k];
  }

  lemma NextComment(s: string, i: nat, x: string)
    requires ClosesOnlyAtEnd(x, "-->") && At(s, i, "<!--" + x + "-->")
    ensures Next(s, i, Xml) == (CommentToken(x), i + |x| + 7)
  {
    assert "<!--" + x + "-->" == "<!--" + (x + "-->");
    AtPrefix(s, i, "<!--", x + "-->");
    AtChar(s, i, "<!--", 0);
    DelimitedAt(s, i, "<!--", x, "-->");
  }

  lemma NextCData(s: string, i: nat, x: string)
    requires ClosesOnlyAtEnd(x, "]]>") && At(s, i, "<![CDATA[" + x + "]]>")
    ensures Next(s, i, Xml) == (CDataToken(x), i + |x| + 12)
  {
    assert "<![CDATA[" + x + "]]>" == "<![CDATA[" + (x + "]]>");
    AtPrefix(s, i, "<![CDATA[", x + "]]>");
    AtChar(s, i, "<![CDATA[", 0);
    AtChar(s, i, "<![CDATA[", 2);
    NotAt(s, i, "<!--", 2);
    DelimitedAt(s, i, "<![CDATA[", x, "]]>");
  }

  lemma ClosesAtGt(x: string)
    requires '>' !in x
    ensures ClosesOnlyAtEnd(x, ">")
  {
    forall k | 0 <= k < |x| ensures !At(x + ">", k, ">") {
      AtIsSlice(x + ">", k, ">");
      assert (x + ">")[k] == x[k];
    }
  }

  lemma NextControl(s: string, i: nat, x: string)
    requires '>' !in x && (x == [] || (x[0] != '-' && x[0] != '['))
    requires At(s, i, "<!" + x + ">")
    ensures Next(s, i, Xml) == (ControlToken(x), i + |x| + 3)
  {
    var w := "<!" + x + ">";
    assert w == "<!" + (x + ">");
    AtPrefix(s, i, "<!", x + ">");
    AtChar(s, i, "<!", 0);
    AtChar(s, i, w, 2);
    assert w[2] != '-' && w[2] != '[';
    NotAt(s, i, "<!--", 2);
    NotAt(s, i, "<![CDATA[", 2);
    ClosesAtGt(x);
    DelimitedAt(s, i, "<!", x, ">");
  }

  lemma NextInstruction(s: string, i: nat, x: string)
    requires ClosesOnlyAtEnd(x, "?>") && At(s, i, "<?" + x + "?>")
    ensures Next(s, i, Xml) == (InstructionToken(x), i + |x| + 4)
  {
    assert "<?" + x + "?>" == "<?" + (x + "?>");
    AtPrefix(s, i, "<?", x + "?>");
    AtChar(s, i, "<?", 0);
    AtChar(s, i, "<?", 1);
    NotAt(s, i, "<!--", 1);
    NotAt(s, i, "<![CDATA[", 1);
    NotAt(s, i, "<!", 1);
    DelimitedAt(s, i, "<?", x, "?>");
  }

  /** After `<`, a character other than `!` and `?` rules out comments,
      CDATA, control constructs and instructions. */
  lemma NotSpecial(s: string, i: nat)
    requires i + 1 < |s| && s[i + 1] != '!' && s[i + 1] != '?'
    ensures !At(s, i, "<!--") && !At(s, i, "<![CDATA[") && !At(s, i, "<!") && !At(s, i, "<?")
  {
    NotAt(s, i, "<!--", 1);
    NotAt(s, i, "<![CDATA[", 1);
    NotAt(s, i, "<!", 1);
    NotAt(s, i, "<?", 1);
  }

  lemma EndTagParts(s: string, i: nat, t: string)
    requires IsName(t) && At(s, i, EndMarkup(t))
    ensures i + 3 + |t| <= |s| && s[i] == '<' && s[i + 1] == '/' && s[i + 2 + |t|] == '>'
    ensures At(s, i, "</") && s[i + 2..i + 2 + |t|] == t && s[i..i + 3 + |t|] == EndMarkup(t)
  {
    var w := EndMarkup(t);
    AtIsSlice(s, i, w);
    AtChar(s, i, w, 0);
    AtChar(s, i, w, 1);
    AtChar(s, i, w, 2 + |t|);
    assert w == "</" + (t + ">");
    AtPrefix(s, i, "</", t + ">");
    SliceOfSlice(s, i, i + |w|, 2, 2 + |t|);
    assert w[2..2 + |t|] == t;
  }

  lemma NextEndTag(s: string, i: nat, t: string)
    requires IsName(t) && At(s, i, EndMarkup(t))
    ensures Next(s, i, Xml) == (EndToken(t, EndMarkup(t)), i + |t| + 3)
  {
    EndTagParts(s, i, t);
    NotSpecial(s, i);
    NameEndAt(s, i + 2, t);
    assert SkipSpaces(s, i + 2 + |t|) == i + 2 + |t|;
  }

  lemma {:induction false} RenderAttributesLast(a: seq<Attribute>)
    requires a != []
    ensures |RenderAttributes(a)| > 0 && IsQuote(RenderAttributes(a)[|RenderAttributes(a)| - 1])
    decreases |a|
  {
    var v := ValueText(a[0]);
    var q := if '"' in v then '\'' else '"';
    var x := RenderAttribute(a[0]);
    assert x == " " + a[0].name + "=" + [q] + v + [q];
    assert RenderAttributes(a) == x + RenderAttributes(a[1..]);
    if a[1..] != [] {
      RenderAttributesLast(a[1..]);
    }
  }

  /** The character a written start tag has just before its `>`. */
  lemma StartMarkupBeforeClose(t: string, a: seq<Attribute>)
    requires IsName(t)
    ensures StartMarkup(t, a)[|t| + |RenderAttributes(a)|] != '/'
  {
    var w := StartMarkup(t, a);
    var ra := RenderAttributes(a);
    assert w == "<" + t + ra + ">";
    if a == [] {
      assert w[|t| + |ra|] == t[|t| - 1];
    } else {
      RenderAttributesLast(a);
      assert w[|t| + |ra|] == ra[|ra| - 1];
    }
  }

  /** The character a written start tag has just after its name. */
  lemma StartMarkupAfterName(t: string, a: seq<Attribute>)
    requires IsName(t) && AttributesWritable(a)
    ensures !IsNameChar(StartMarkup(t, a)[1 + |t|])
  {
    var w := StartMarkup(t, a);
    var ra := RenderAttributes(a);
    assert w == "<" + t + ra + ">";
    if a != [] {
      RenderAttributesHead(a);
      assert w[1 + |t|] == ra[0];
    }
  }

  /** Written attributes stay written when their text is embedded. */
  lemma {:induction false} WrittenShift(s: string, i: nat, w: string, j: nat, a: seq<Attribute>)
    requires At(s, i, w) && WrittenAt(w, j, a)
    ensures WrittenAt(s, i + j, a)
    decreases |a|
  {
    if a != [] {
      var x := RenderAttribute(a[0]);
      AtIsSlice(s, i, w);
      AtIsSlice(w, j, x);
      AtShift(s, i, w, j, x);
      WrittenShift(s, i, w, j + |x|, a[1..]);
    }
  }

  /** The facts about a start tag that the lexer looks at. */
  predicate StartTagShape(w: string, t: string, n: nat)
  {
    IsName(t) && |t| == n && |w| >= n + 2 &&
    w[0] == '<' && w[1..1 + n] == t && !IsNameChar(w[1 + n]) &&
    w[|w| - 1] == '>' && w[|w| - 2] != '/'
  }

  lemma StartMarkupShape(t: string, a: seq<Attribute>)
    requires IsName(t) && AttributesWritable(a)
    ensures StartTagShape(StartMarkup(t, a), t, |t|)
    ensures WrittenAt(StartMarkup(t, a), 1 + |t|, a)
    ensures |StartMarkup(t, a)| == |t| + |RenderAttributes(a)| + 2
  {
    var w := StartMarkup(t, a);
    StartMarkupParts(t, a);
    StartMarkupBeforeClose(t, a);
    StartMarkupAfterName(t, a);
    assert w == "<" + t + RenderAttributes(a) + ">";
    assert w[1..1 + |t|] == t;
  }

  lemma ShapeAt(s: string, i: nat, w: string, t: string, n: nat)
    requires StartTagShape(w, t, n) && At(s, i, w)
    ensures i + |w| <= |s| && s[i..i + |w|] == w
    ensures s[i] == '<' && IsNameChar(s[i + 1]) && s[i + 1..i + 1 + n] == t
    ensures !IsNameChar(s[i + 1 + n]) && s[i + |w| - 1] == '>' && s[i + |w| - 2] != '/'
  {
    AtIsSlice(s, i, w);
    AtChar(s, i, w, 0);
    AtChar(s, i, w, 1);
    AtChar(s, i, w, 1 + n);
    AtChar(s, i, w, |w| - 1);
    AtChar(s, i, w, |w| - 2);
    SliceOfSlice(s, i, i + |w|, 1, 1 + n);
    assert w[1] == t[0];
  }

  lemma StartTagMarkupAt(s: string, i: nat, j: nat, e: nat)
    requires i + 1 < |s| && NameEnd(s, i + 1) == j && j > i + 1
    requires TagEnd(s, j, Xml) == Some(e)
    ensures StartTagMarkup(s, i, Xml) == Some((StartToken(s[i + 1..j], s[e - 1] == '/', s[i..e + 1]), e + 1))
  {
  }

  lemma MarkupStartTag(s: string, i: nat, j: nat, e: nat)
    requires i + 1 < |s| && s[i] == '<'
    requires !At(s, i, "<!") && !At(s, i, "<?") && !At(s, i, "</")
    requires NameEnd(s, i + 1) == j && j > i + 1
    requires TagEnd(s, j, Xml) == Some(e)
    ensures Markup(s, i, Xml) == Some((StartToken(s[i + 1..j], s[e - 1] == '/', s[i..e + 1]), e + 1))
  {
    StartTagMarkupAt(s, i, j, e);
  }

  lemma NextOfMarkup(s: string, i: nat, tok: Token, n: nat)
    requires i < |s| && s[i] == '<' && Markup(s, i, Xml) == Some((tok, n))
    ensures Next(s, i, Xml) == (tok, n)
  {
  }

  lemma ShapedTagFacts(s: string, i: nat, w: string, t: string, n: nat)
    requires StartTagShape(w, t, n) && At(s, i, w)
    ensures i + 1 < |s| && s[i] == '<'
    ensures !At(s, i, "<!--") && !At(s, i, "<![CDATA[") && !At(s, i, "<!") && !At(s, i, "<?")
    ensures !At(s, i, "</") && NameEnd(s, i + 1) == i + 1 + n
    ensures s[i + 1..i + 1 + n] == t && s[i + |w| - 2] != '/' && s[i..i + |w|] == w
  {
    ShapeAt(s, i, w, t, n);
    NotSpecial(s, i);
    NotAt(s, i, "</", 1);
    NameEndAt(s, i + 1, t);
  }

  /** The strict tag-end scan over written attributes finds the tag's `>`. */
  lemma TagEndOfWritten(s: string, i: nat, w: string, j: nat, a: seq<Attribute>)
    requires AttributesWritable(a) && WrittenAt(w, j, a)
    requires |w| == j + |RenderAttributes(a)| + 1 && w[|w| - 1] == '>'
    requires At(s, i, w)
    ensures TagEnd(s, i + j, Xml) == Some(i + |w| - 1)
  {
    WrittenShift(s, i, w, j, a);
    AtChar(s, i, w, |w| - 1);
    XmlTagEndOfAttributes(s, i + j, a);
  }
}
