/** Whole parses of the small inputs the test suite uses to exercise the
    error paths of the two document classes.  Each input is described by its
    characters; its tokens are computed one construct at a time; the
    outcome of the build follows from the tokens.

    The test inputs are written as concatenations of short literals
    (`"bo" + "dy"`): the pieces denote the same string, but a single long
    literal makes the verifier unfold the scanners and the writer over every
    character at once. */
module ParseCases {
  import opened Chars
  import opened Attributes
  import opened AttributeMaps
  import opened Tokenizer
  import opened Tree
  import opened BuildSpec
  import opened MarkupReading

  // ----- reading one construct, in either dialect -----

  /** A start tag named `t` whose interior the dialect ends at `e`. */
  lemma NextStartTag(s: string, i: nat, t: string, e: nat, d: Dialect)
    requires IsName(t) && i + 1 + |t| < |s| && s[i] == '<' && s[i + 1..i + 1 + |t|] == t
    requires !IsNameChar(s[i + 1 + |t|]) && TagEnd(s, i + 1 + |t|, d) == Some(e)
    ensures Next(s, i, d) == (StartToken(t, s[e - 1] == '/', s[i..e + 1]), e + 1)
  {
    assert s[i + 1] == t[0];
    NotAt(s, i, "<!", 1);
    NotAt(s, i, "<?", 1);
    NotAt(s, i, "</", 1);
    NameEndAt(s, i + 1, t);
  }

  /** An end tag `</t>`. */
  lemma NextEndTagIn(s: string, i: nat, t: string, d: Dialect)
    requires IsName(t) && i + 3 + |t| <= |s| && s[i] == '<' && s[i + 1] == '/'
    requires s[i + 2..i + 2 + |t|] == t && s[i + 2 + |t|] == '>'
    ensures Next(s, i, d) == (EndToken(t, s[i..i + 3 + |t|]), i + 3 + |t|)
  {
    NotAt(s, i, "<!", 1);
    NotAt(s, i, "<?", 1);
    assert s[i..i + 2] == "</";
    AtIsSlice(s, i, "</");
    NameEndAt(s, i + 2, t);
    SkipNone(s, i + 2 + |t|);
  }

  lemma LexOne(s: string, i: nat, d: Dialect, tok: Token, n: nat)
    requires i < |s| && Next(s, i, d) == (tok, n)
    ensures Lex(s, i, d) == [tok] + Lex(s, n, d)
  {
  }

  // ----- feeding the callbacks -----

  lemma RunOk(f: Flavor, st: State, e: Event, rest: seq<Event>, next: State)
    requires Step(f, st, e) == Ok(next)
    ensures Run(f, st, [e] + rest) == Run(f, next, rest)
  {
    assert ([e] + rest)[1..] == rest;
  }

  lemma RunErr(f: Flavor, st: State, e: Event, rest: seq<Event>, err: ParseError)
    requires Step(f, st, e) == Err(err)
    ensures Run(f, st, [e] + rest) == Err(err)
  {
  }

  /** The events of an input lexed into the given tokens. */
  lemma EventsOf(s: string, d: Dialect, ts: seq<Token>)
    requires Tokens(s, d) == ts
    ensures Events(s, d) == [StartDocument] + TokensEvents(ts, d) + [EndDocument]
  {
  }

  lemma TwoTokensEvents(t0: Token, t1: Token, d: Dialect)
    ensures TokensEvents([t0, t1], d) == TokenEvents(t0, d) + TokenEvents(t1, d)
  {
    assert [t0, t1][1..] == [t1] && [t1][1..] == [];
    assert TokensEvents([t1], d) == TokenEvents(t1, d) + TokensEvents([], d);
  }

  // ----- no markup at all -----

  /** Input without `<` is one text token, or none when it is empty. */
  lemma TextOnlyTokens(s: string, d: Dialect)
    requires forall k :: 0 <= k < |s| ==> s[k] != '<'
    ensures Tokens(s, d) == if s == [] then [] else [TextToken(s)]
  {
    if s != [] {
      assert TextEnd(s, 0) == |s|;
      assert s[0..|s|] == s;
      LexOne(s, 0, d, TextToken(s), |s|);
    }
  }

  /** Text without markup holds no element, so neither document class
      finds a root. */
  lemma NoMarkupNoRoot(f: Flavor, s: string)
    requires forall k :: 0 <= k < |s| ==> s[k] != '<'
    ensures Build(f, s) == Err(NoRootElement)
  {
    var d := DialectOf(f);
    TextOnlyTokens(s, d);
    if s == [] {
      EventsOf(s, d, []);
      assert Events(s, d) == [StartDocument] + [EndDocument];
      RunOk(f, Empty, StartDocument, [EndDocument], Empty);
      RunErr(f, Empty, EndDocument, [], NoRootElement);
    } else {
      EventsOf(s, d, [TextToken(s)]);
      assert Events(s, d) == [StartDocument] + ([AddText(s)] + [EndDocument]);
      var one := State([Text(s)], []);
      RunOk(f, Empty, StartDocument, [AddText(s)] + [EndDocument], Empty);
      assert AppendText(Empty, s) == one by {
        assert Container(Empty) + [Text(s)] == [Text(s)];
      }
      RunOk(f, Empty, AddText(s), [EndDocument], one);
      TextOnlyNoRoot(f, s);
      RunErr(f, one, EndDocument, [], NoRootElement);
    }
  }

  lemma TextOnlyNoRoot(f: Flavor, x: string)
    ensures Step(f, State([Text(x)], []), EndDocument) == Err(NoRootElement)
  {
    assert PopN(State([Text(x)], []), 0) == State([Text(x)], []);
    assert FirstElement([Text(x)]) == None;
  }

  /** `new XmlLightDocument("no xml root node defined")` fails. */
  lemma NoRootCase()
    ensures Build(XmlFlavor, "no xml root " + "node defined") == Err(NoRootElement)
  {
    NoMarkupNoRoot(XmlFlavor, "no xml root " + "node defined");
  }

  // ----- an element never closed -----

  /** The characters of `<xml tag-not-closed='true'>`. */
  predicate UnclosedInput(s: string) {
    |s| == 27 && s[0] == '<' && s[1] == 'x' && s[2] == 'm' && s[3] == 'l' && s[4] == ' ' &&
    s[5] == 't' && s[6] == 'a' && s[7] == 'g' && s[8] == '-' && s[9] == 'n' && s[10] == 'o' &&
    s[11] == 't' && s[12] == '-' && s[13] == 'c' && s[14] == 'l' && s[15] == 'o' && s[16] == 's' &&
    s[17] == 'e' && s[18] == 'd' && s[19] == '=' && s[20] == '\'' && s[21] == 't' &&
    s[22] == 'r' && s[23] == 'u' && s[24] == 'e' && s[25] == '\'' && s[26] == '>'
  }

  lemma UnclosedAttribute(s: string)
    requires UnclosedInput(s)
    ensures ReadAttribute(s, 5, Xml) == (Some(Attribute("tag-not-closed", Some("true"))), 26)
  {
    assert s[5..19] == "tag-not-closed" && s[21..25] == "true";
    ReadQuoted(s, 5, "tag-not-closed", '\'', "true", Xml);
  }

  lemma UnclosedTagEnd(s: string)
    requires UnclosedInput(s)
    ensures TagEnd(s, 4, Xml) == Some(26)
  {
    UnclosedAttribute(s);
    XmlTagEndStep(s, 4, Attribute("tag-not-closed", Some("true")), 26);
    XmlTagEndAtClose(s, 26);
  }

  lemma UnclosedStart(s: string)
    requires UnclosedInput(s)
    ensures Next(s, 0, Xml) == (StartToken("xml", false, s), 27)
  {
    UnclosedTagEnd(s);
    assert s[1..4] == "xml" && s[0..27] == s;
    NextStartTag(s, 0, "xml", 26, Xml);
  }

  lemma UnclosedTokens(s: string)
    requires UnclosedInput(s)
    ensures Tokens(s, Xml) == [StartToken("xml", false, s)]
  {
    UnclosedStart(s);
    LexOne(s, 0, Xml, StartToken("xml", false, s), 27);
  }

  lemma UnclosedBuild(s: string)
    requires UnclosedInput(s)
    ensures Build(XmlFlavor, s) == Err(UnclosedTag("xml"))
  {
    UnclosedTokens(s);
    var a := ParseAttributes(s, Xml);
    var open := StartTag("xml", false, s, a);
    EventsOf(s, Xml, [StartToken("xml", false, s)]);
    assert Events(s, Xml) == [StartDocument] + ([open] + [EndDocument]);
    RunOk(XmlFlavor, Empty, StartDocument, [open] + [EndDocument], Empty);
    RunOk(XmlFlavor, Empty, open, [EndDocument], Push(Empty, "xml", a));
    RunErr(XmlFlavor, Push(Empty, "xml", a), EndDocument, [], UnclosedTag("xml"));
  }

  /** `new XmlLightDocument("<xml tag-not-closed='true'>")` fails: the
      element is still open when the input ends. */
  lemma UnclosedCase()
    ensures Build(XmlFlavor, "<xml tag-not" + "-closed='true'>") == Err(UnclosedTag("xml"))
  {
    UnclosedBuild("<xml tag-not" + "-closed='true'>");
  }

  // ----- an end tag that does not match -----

  /** The characters of `<xml wrong-tag-closed='true'></other>`. */
  predicate WrongCloseInput(s: string) {
    |s| == 37 && s[0] == '<' && s[1] == 'x' && s[2] == 'm' && s[3] == 'l' && s[4] == ' ' &&
    s[5] == 'w' && s[6] == 'r' && s[7] == 'o' && s[8] == 'n' && s[9] == 'g' && s[10] == '-' &&
    s[11] == 't' && s[12] == 'a' && s[13] == 'g' && s[14] == '-' && s[15] == 'c' && s[16] == 'l' &&
    s[17] == 'o' && s[18] == 's' && s[19] == 'e' && s[20] == 'd' && s[21] == '=' &&
    s[22] == '\'' && s[23] == 't' && s[24] == 'r' && s[25] == 'u' && s[26] == 'e' &&
    s[27] == '\'' && s[28] == '>' && s[29] == '<' && s[30] == '/' && s[31] == 'o' &&
    s[32] == 't' && s[33] == 'h' && s[34] == 'e' && s[35] == 'r' && s[36] == '>'
  }

  lemma WrongCloseAttribute(s: string)
    requires WrongCloseInput(s)
    ensures ReadAttribute(s, 5, Xml) == (Some(Attribute("wrong-tag-closed", Some("true"))), 28)
  {
    assert s[5..21] == "wrong-tag-closed" && s[23..27] == "true";
    ReadQuoted(s, 5, "wrong-tag-closed", '\'', "true", Xml);
  }

  lemma WrongCloseTagEnd(s: string)
    requires WrongCloseInput(s)
    ensures TagEnd(s, 4, Xml) == Some(28)
  {
    WrongCloseAttribute(s);
    XmlTagEndStep(s, 4, Attribute("wrong-tag-closed", Some("true")), 28);
    XmlTagEndAtClose(s, 28);
  }

  lemma WrongCloseStart(s: string)
    requires WrongCloseInput(s)
    ensures Next(s, 0, Xml) == (StartToken("xml", false, s[0..29]), 29)
  {
    WrongCloseTagEnd(s);
    assert s[1..4] == "xml";
    NextStartTag(s, 0, "xml", 28, Xml);
  }

  lemma WrongCloseEnd(s: string)
    requires WrongCloseInput(s)
    ensures Next(s, 29, Xml) == (EndToken("other", s[29..37]), 37)
  {
    assert s[31..36] == "other";
    NextEndTagIn(s, 29, "other", Xml);
  }

  lemma WrongCloseTokens(s: string)
    requires WrongCloseInput(s)
    ensures Tokens(s, Xml) == [StartToken("xml", false, s[0..29]), EndToken("other", s[29..37])]
  {
    WrongCloseStart(s);
    WrongCloseEnd(s);
    LexOne(s, 0, Xml, StartToken("xml", false, s[0..29]), 29);
    LexOne(s, 29, Xml, EndToken("other", s[29..37]), 37);
  }

  lemma WrongCloseBuild(s: string)
    requires WrongCloseInput(s)
    ensures Build(XmlFlavor, s) == Err(MismatchedClosingTag("other"))
  {
    WrongCloseTokens(s);
    var a := ParseAttributes(s[0..29], Xml);
    var open := StartTag("xml", false, s[0..29], a);
    var t0 := StartToken("xml", false, s[0..29]);
    var t1 := EndToken("other", s[29..37]);
    EventsOf(s, Xml, [t0, t1]);
    TwoTokensEvents(t0, t1, Xml);
    assert Events(s, Xml) == [StartDocument] + ([open] + ([EndTag("other")] + [EndDocument]));
    RunOk(XmlFlavor, Empty, StartDocument, [open] + ([EndTag("other")] + [EndDocument]), Empty);
    RunOk(XmlFlavor, Empty, open, [EndTag("other")] + [EndDocument], Push(Empty, "xml", a));
    RunErr(XmlFlavor, Push(Empty, "xml", a), EndTag("other"), [EndDocument], MismatchedClosingTag("other"));
  }

  /** `new XmlLightDocument("<xml wrong-tag-closed='true'></other>")`
      fails: `</other>` does not close `xml`. */
  lemma WrongCloseCase()
    ensures Build(XmlFlavor, "<xml w" + "rong-t" + "ag-clo" + "sed='t" + "rue'><" + "/other>") == Err(MismatchedClosingTag("other"))
  {
    WrongCloseText();
    WrongCloseBuild("<xml w" + "rong-t" + "ag-clo" + "sed='t" + "rue'><" + "/other>");
  }

  lemma WrongCloseText()
    ensures WrongCloseInput("<xml w" + "rong-t" + "ag-clo" + "sed='t" + "rue'><" + "/other>")
  {
  }

  // ----- an HTML document whose root is not html -----

  /** The characters of `<not-html></not-html>`. */
  predicate NotHtmlInput(s: string) {
    |s| == 21 && s[0] == '<' && s[1] == 'n' && s[2] == 'o' && s[3] == 't' && s[4] == '-' &&
    s[5] == 'h' && s[6] == 't' && s[7] == 'm' && s[8] == 'l' && s[9] == '>' && s[10] == '<' &&
    s[11] == '/' && s[12] == 'n' && s[13] == 'o' && s[14] == 't' && s[15] == '-' && s[16] == 'h' &&
    s[17] == 't' && s[18] == 'm' && s[19] == 'l' && s[20] == '>'
  }

  /** Case-insensitive names: lower-casing a name without capitals keeps it. */
  lemma LowerKeeps(s: string)
    requires forall k :: 0 <= k < |s| ==> !('A' <= s[k] <= 'Z')
    ensures Lower(s) == s
  {
  }

  /** An HTML start tag with no auto-close rule and no void content closes
      nothing and stays open. */
  lemma PlainOpens(st: State, t: string, sc: bool, raw: string, a: seq<Attribute>)
    requires AutoCloseRule(Lower(t)) == None && Lower(t) !in VoidTags
    ensures Step(HtmlFlavor, st, StartTag(t, sc, raw, a)) == Ok(Push(st, t, a))
  {
  }

  /** The end tag of the only open element closes it into the document. */
  lemma SoleElementCloses(t: string, a: seq<Attribute>)
    ensures Step(HtmlFlavor, Push(Empty, t, a), EndTag(t)) == Ok(State([Element(t, Dedup(a), [])], []))
  {
    var pushed := Push(Empty, t, a);
    assert FindOpen(pushed.open, Lower(t), 1) == Some(0);
    assert PopN(pushed, 1) == PopN(Pop(pushed), 0);
    assert Pop(pushed) == State([Element(t, Dedup(a), [])], []) by {
      assert Container(Empty) + [Element(t, Dedup(a), [])] == [Element(t, Dedup(a), [])];
    }
  }

  /** Closing the element just opened makes it the last child of what was
      the container before it opened. */
  lemma PopPush(st: State, t: string, a: seq<Attribute>)
    ensures Pop(Push(st, t, a)) == Append(st, Element(t, Dedup(a), []))
  {
    assert Push(st, t, a).open[..|st.open|] == st.open;
  }

  /** In both document classes the end tag of the innermost open element
      closes exactly that element. */
  lemma EndInnermost(f: Flavor, st: State, t: string, a: seq<Attribute>)
    ensures Step(f, Push(st, t, a), EndTag(t)) == Ok(Append(st, Element(t, Dedup(a), [])))
  {
    var p := Push(st, t, a);
    PopPush(st, t, a);
    if f == HtmlFlavor {
      assert FindOpen(p.open, Lower(t), |p.open|) == Some(|st.open|);
      assert PopN(p, 1) == PopN(Pop(p), 0);
    }
  }

  /** An HTML document whose only element is not `html` is rejected. */
  lemma SoleRootNotHtml(t: string, a: seq<Attribute>)
    requires Lower(t) != "html"
    ensures Step(HtmlFlavor, State([Element(t, a, [])], []), EndDocument) == Err(RootNotHtml(t))
  {
    assert PopN(State([Element(t, a, [])], []), 0) == State([Element(t, a, [])], []);
  }

  /** `not-html` is a plain element name. */
  lemma NotHtmlName(s: string)
    requires NotHtmlInput(s)
    ensures IsName(s[1..9]) && s[12..20] == s[1..9]
    ensures AutoCloseRule(Lower(s[1..9])) == None && Lower(s[1..9]) !in VoidTags && Lower(s[1..9]) != "html"
  {
    LowerKeeps(s[1..9]);
  }

  lemma NotHtmlStart(s: string)
    requires NotHtmlInput(s)
    ensures Next(s, 0, Html) == (StartToken(s[1..9], false, s[0..10]), 10)
  {
    NotHtmlName(s);
    assert TagEnd(s, 9, Html) == Some(9);
    NextStartTag(s, 0, s[1..9], 9, Html);
  }

  lemma NotHtmlEnd(s: string)
    requires NotHtmlInput(s)
    ensures Next(s, 10, Html) == (EndToken(s[1..9], s[10..21]), 21)
  {
    NotHtmlName(s);
    NextEndTagIn(s, 10, s[1..9], Html);
  }

  lemma NotHtmlTokens(s: string)
    requires NotHtmlInput(s)
    ensures Tokens(s, Html) == [StartToken(s[1..9], false, s[0..10]), EndToken(s[1..9], s[10..21])]
  {
    NotHtmlStart(s);
    NotHtmlEnd(s);
    LexOne(s, 0, Html, StartToken(s[1..9], false, s[0..10]), 10);
    LexOne(s, 10, Html, EndToken(s[1..9], s[10..21]), 21);
  }

  lemma NotHtmlBuild(s: string)
    requires NotHtmlInput(s)
    ensures Build(HtmlFlavor, s) == Err(RootNotHtml(s[1..9]))
  {
    var t := s[1..9];
    NotHtmlTokens(s);
    NotHtmlName(s);
    var a := ParseAttributes(s[0..10], Html);
    var open := StartTag(t, false, s[0..10], a);
    var t0 := StartToken(t, false, s[0..10]);
    var t1 := EndToken(t, s[10..21]);
    EventsOf(s, Html, [t0, t1]);
    TwoTokensEvents(t0, t1, Html);
    assert Events(s, Html) == [StartDocument] + ([open] + ([EndTag(t)] + [EndDocument]));
    var pushed := Push(Empty, t, a);
    var closed := State([Element(t, Dedup(a), [])], []);
    PlainOpens(Empty, t, false, s[0..10], a);
    SoleElementCloses(t, a);
    SoleRootNotHtml(t, Dedup(a));
    RunOk(HtmlFlavor, Empty, StartDocument, [open] + ([EndTag(t)] + [EndDocument]), Empty);
    RunOk(HtmlFlavor, Empty, open, [EndTag(t)] + [EndDocument], pushed);
    RunOk(HtmlFlavor, pushed, EndTag(t), [EndDocument], closed);
    RunErr(HtmlFlavor, closed, EndDocument, [], RootNotHtml(t));
  }

  lemma NotHtmlText()
    ensures NotHtmlInput("<not-" + "html>" + "</not" + "-html>")
    ensures ("<not-" + "html>" + "</not" + "-html>")[1..9] == "not-html"
  {
  }

  /** `new HtmlLightDocument("<not-html></not-html>")` fails: the root
      element of an HTML document must be `html`. */
  lemma NotHtmlCase()
    ensures Build(HtmlFlavor, "<not-" + "html>" + "</not" + "-html>") == Err(RootNotHtml("not-html"))
  {
    NotHtmlText();
    NotHtmlBuild("<not-" + "html>" + "</not" + "-html>");
  }
}
