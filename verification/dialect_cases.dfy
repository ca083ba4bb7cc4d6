/** `<html id=a ><body foo='bar' bar="foo" />` read by both document
    classes: the lenient reader takes `id=a` as an attribute of `html` and
    makes `body` its child, while the strict reader cannot read `id=a`, so
    the first tag stays text and `body` becomes the root.

    The test inputs are written as concatenations of short literals
    (`"bo" + "dy"`): the pieces denote the same string, but a single long
    literal makes the verifier unfold the scanners and the writer over every
    character at once. */
module DialectCases {
  import opened Chars
  import opened Attributes
  import opened AttributeMaps
  import opened Tokenizer
  import opened Tree
  import opened BuildSpec
  import opened MarkupReading
  import opened AttributeCases
  import opened ParseCases

  /** The characters of `<html id=a >` at the start of `s`. */
  predicate OpenTagAtStart(s: string) {
    |s| >= 12 &&
    s[0] == '<' && s[1] == 'h' && s[2] == 't' && s[3] == 'm' && s[4] == 'l' && s[5] == ' ' &&
    s[6] == 'i' && s[7] == 'd' && s[8] == '=' && s[9] == 'a' && s[10] == ' ' && s[11] == '>'
  }

  /** The characters of `<body foo='bar' bar="foo" />` at `o`. */
  predicate SelfClosedTagAt(s: string, o: nat) {
    o + 28 <= |s| &&
    s[o] == '<' && s[o + 1] == 'b' && s[o + 2] == 'o' && s[o + 3] == 'd' && s[o + 4] == 'y' &&
    s[o + 5] == ' ' && s[o + 6] == 'f' && s[o + 7] == 'o' && s[o + 8] == 'o' && s[o + 9] == '=' &&
    s[o + 10] == '\'' && s[o + 11] == 'b' && s[o + 12] == 'a' && s[o + 13] == 'r' &&
    s[o + 14] == '\'' && s[o + 15] == ' ' && s[o + 16] == 'b' && s[o + 17] == 'a' &&
    s[o + 18] == 'r' && s[o + 19] == '=' && s[o + 20] == '"' && s[o + 21] == 'f' &&
    s[o + 22] == 'o' && s[o + 23] == 'o' && s[o + 24] == '"' && s[o + 25] == ' ' &&
    s[o + 26] == '/' && s[o + 27] == '>'
  }

  /** The characters of the whole input. */
  predicate TwoTagInput(s: string) {
    |s| == 40 && OpenTagAtStart(s) && SelfClosedTagAt(s, 12)
  }

  // ----- the attributes, one at a time -----

  /** `id=a`: an unquoted value, which only the lenient dialect takes. */
  lemma ReadIdLenient(s: string)
    requires OpenTagAtStart(s)
    ensures ReadAttribute(s, 6, Html) == (Some(Attribute("id", Some("a"))), 10)
  {
    assert s[6..8] == "id" && s[9..10] == "a";
    NameEndAt(s, 6, "id");
    SkipNone(s, 8);
    SkipNone(s, 9);
    assert ValueEnd(s, 10) == 10;
  }

  /** The strict dialect skips `id=a`, resuming right after the name. */
  lemma ReadIdStrict(s: string)
    requires OpenTagAtStart(s)
    ensures ReadAttribute(s, 6, Xml) == (None, 8)
  {
    assert s[6..8] == "id";
    NameEndAt(s, 6, "id");
    SkipNone(s, 8);
    SkipNone(s, 9);
  }

  lemma ReadFoo(s: string, o: nat, d: Dialect)
    requires SelfClosedTagAt(s, o)
    ensures ReadAttribute(s, o + 6, d) == (Some(Attribute("foo", Some("bar"))), o + 15)
  {
    assert s[o + 6..o + 9] == "foo" && s[o + 11..o + 14] == "bar";
    ReadQuoted(s, o + 6, "foo", '\'', "bar", d);
  }

  lemma ReadBar(s: string, o: nat, d: Dialect)
    requires SelfClosedTagAt(s, o)
    ensures ReadAttribute(s, o + 16, d) == (Some(Attribute("bar", Some("foo"))), o + 25)
  {
    assert s[o + 16..o + 19] == "bar" && s[o + 21..o + 24] == "foo";
    ReadQuoted(s, o + 16, "bar", '"', "foo", d);
  }

  /** The attributes of `<html id=a >`, lenient dialect. */
  lemma OpenTagAttributes(r: string)
    requires OpenTagAtStart(r) && |r| == 12
    ensures ParseAttributes(r, Html) == [Attribute("id", Some("a"))]
  {
    ReadIdLenient(r);
    ScanRead(r, 5, Html, Some(Attribute("id", Some("a"))), 10);
    assert Scan(r, 10, Html) == Scan(r, 11, Html);
    ScanAtEnd(r, 11, Html);
    ScanSkips(r, 0, 5, Html);
  }

  lemma ScanFromBar(r: string, d: Dialect)
    requires SelfClosedTagAt(r, 0) && |r| == 28
    ensures Scan(r, 15, d) == [Attribute("bar", Some("foo"))]
  {
    ReadBar(r, 0, d);
    ScanRead(r, 15, d, Some(Attribute("bar", Some("foo"))), 25);
    assert Scan(r, 25, d) == Scan(r, 26, d);
    ScanSkips(r, 26, 27, d);
    ScanAtEnd(r, 27, d);
  }

  lemma ScanFromFoo(r: string, d: Dialect)
    requires SelfClosedTagAt(r, 0) && |r| == 28
    ensures Scan(r, 5, d) == [Attribute("foo", Some("bar")), Attribute("bar", Some("foo"))]
  {
    ReadFoo(r, 0, d);
    ScanFromBar(r, d);
    ScanRead(r, 5, d, Some(Attribute("foo", Some("bar"))), 15);
  }

  /** The attributes of `<body foo='bar' bar="foo" />`, either dialect. */
  lemma SelfClosedAttributes(r: string, d: Dialect)
    requires SelfClosedTagAt(r, 0) && |r| == 28
    ensures ParseAttributes(r, d) == [Attribute("foo", Some("bar")), Attribute("bar", Some("foo"))]
  {
    ScanFromFoo(r, d);
    ScanSkips(r, 0, 5, d);
  }

  /** The two tags, cut out of the input. */
  lemma TagsOfInput(s: string)
    requires TwoTagInput(s)
    ensures OpenTagAtStart(s[0..12]) && |s[0..12]| == 12
    ensures SelfClosedTagAt(s[12..40], 0) && |s[12..40]| == 28
  {
  }

  // ----- the tokens -----

  lemma LenientOpenTagEnd(s: string)
    requires TwoTagInput(s)
    ensures TagEnd(s, 5, Html) == Some(11)
  {
    ReadIdLenient(s);
    HtmlTagEndStep(s, 5, Some(Attribute("id", Some("a"))), 10);
    assert HtmlTagEnd(s, 10) == HtmlTagEnd(s, 11) == Some(11);
  }

  /** The lenient tag-end scan steps over an attribute it reads. */
  lemma HtmlTagEndStep(s: string, k: nat, a: Option<Attribute>, n: nat)
    requires k + 1 < |s| && IsSpace(s[k]) && IsNameChar(s[k + 1])
    requires ReadAttribute(s, k + 1, Html) == (a, n)
    ensures n <= |s| && HtmlTagEnd(s, k) == HtmlTagEnd(s, n)
  {
  }

  lemma LenientSelfClosedTail(s: string)
    requires TwoTagInput(s)
    ensures HtmlTagEnd(s, 37) == Some(39)
  {
    assert HtmlTagEnd(s, 38) == HtmlTagEnd(s, 39) == Some(39);
  }

  lemma LenientSelfClosedTagEnd(s: string)
    requires TwoTagInput(s)
    ensures TagEnd(s, 17, Html) == Some(39)
  {
    ReadFoo(s, 12, Html);
    HtmlTagEndStep(s, 17, Some(Attribute("foo", Some("bar"))), 27);
    LenientAfterFoo(s);
  }

  lemma LenientAfterFoo(s: string)
    requires TwoTagInput(s)
    ensures HtmlTagEnd(s, 27) == Some(39)
  {
    ReadBar(s, 12, Html);
    HtmlTagEndStep(s, 27, Some(Attribute("bar", Some("foo"))), 37);
    LenientSelfClosedTail(s);
  }

  lemma StrictSelfClosedTagEnd(s: string)
    requires TwoTagInput(s)
    ensures TagEnd(s, 17, Xml) == Some(39)
  {
    ReadFoo(s, 12, Xml);
    ReadBar(s, 12, Xml);
    XmlTagEndStep(s, 17, Attribute("foo", Some("bar")), 27);
    XmlTagEndStep(s, 27, Attribute("bar", Some("foo")), 37);
    assert SkipSpaces(s, 38) == 38;
    assert XmlTagEnd(s, 37) == Some(39);
  }

  lemma TagNames(s: string)
    requires TwoTagInput(s)
    ensures IsName(s[1..5]) && IsName(s[13..17])
  {
  }

  lemma LenientFirst(s: string)
    requires TwoTagInput(s)
    ensures Next(s, 0, Html) == (StartToken(s[1..5], false, s[0..12]), 12)
  {
    TagNames(s);
    LenientOpenTagEnd(s);
    NextStartTag(s, 0, s[1..5], 11, Html);
  }

  lemma SelfClosedNext(s: string, d: Dialect)
    requires TwoTagInput(s) && TagEnd(s, 17, d) == Some(39)
    ensures Next(s, 12, d) == (StartToken(s[13..17], true, s[12..40]), 40)
  {
    TagNames(s);
    NextStartTag(s, 12, s[13..17], 39, d);
  }

  /** Strictly, `<html id=a >` is not a tag: it is read as text. */
  lemma StrictFirst(s: string)
    requires TwoTagInput(s)
    ensures Next(s, 0, Xml) == (TextToken(s[0..12]), 12)
  {
    TagNames(s);
    ReadIdStrict(s);
    assert XmlTagEnd(s, 5) == None;
    NameEndAt(s, 1, s[1..5]);
    NotAt(s, 0, "<!", 1);
    NotAt(s, 0, "<?", 1);
    NotAt(s, 0, "</", 1);
    assert Markup(s, 0, Xml) == None;
    assert TextEnd(s, 1) == 12;
  }

  lemma LenientTokens(s: string)
    requires TwoTagInput(s)
    ensures Tokens(s, Html) ==
      [StartToken(s[1..5], false, s[0..12]), StartToken(s[13..17], true, s[12..40])]
  {
    LenientFirst(s);
    LenientSelfClosedTagEnd(s);
    SelfClosedNext(s, Html);
    LexOne(s, 0, Html, StartToken(s[1..5], false, s[0..12]), 12);
    LexOne(s, 12, Html, StartToken(s[13..17], true, s[12..40]), 40);
  }

  lemma StrictTokens(s: string)
    requires TwoTagInput(s)
    ensures Tokens(s, Xml) == [TextToken(s[0..12]), StartToken(s[13..17], true, s[12..40])]
  {
    StrictFirst(s);
    StrictSelfClosedTagEnd(s);
    SelfClosedNext(s, Xml);
    LexOne(s, 0, Xml, TextToken(s[0..12]), 12);
    LexOne(s, 12, Xml, StartToken(s[13..17], true, s[12..40]), 40);
  }

  // ----- the two builds -----

  lemma LenientNames(s: string)
    requires TwoTagInput(s)
    ensures AutoCloseRule(Lower(s[1..5])) == None && Lower(s[1..5]) !in VoidTags
    ensures AutoCloseRule(Lower(s[13..17])) == None && Lower(s[13..17]) !in VoidTags
  {
    LowerKeeps(s[1..5]);
    LowerKeeps(s[13..17]);
  }

  lemma RootIsHtml(s: string)
    requires TwoTagInput(s)
    ensures Lower(s[1..5]) == "html"
  {
    LowerKeeps(s[1..5]);
    assert s[1..5] == "html";
  }

  /** The lenient document closes `html` at the end of the input and
      accepts it as the root. */
  lemma LenientEnd(t: string, a: seq<Attribute>, body: Node)
    requires Lower(t) == "html"
    ensures Step(HtmlFlavor, State([], [Frame(t, a, [body])]), EndDocument) ==
      Ok(State([Element(t, a, [body])], []))
  {
    var st := State([], [Frame(t, a, [body])]);
    assert PopN(st, 1) == PopN(Pop(st), 0);
    assert Pop(st) == State([Element(t, a, [body])], []) by {
      assert Container(State([], [])) + [Element(t, a, [body])] == [Element(t, a, [body])];
    }
  }

  /** The strict document has nothing open at the end and its first
      element, `body`, is the root. */
  lemma StrictEnd(x: string, body: Node)
    requires body.Element?
    ensures Step(XmlFlavor, State([Text(x), body], []), EndDocument) == Ok(State([Text(x), body], []))
  {
    assert FirstElement([Text(x), body]) == Some(body) by {
      assert [Text(x), body][1..] == [body];
    }
  }

  /** The lenient callbacks: two start tags, the second self-closed. */
  lemma LenientEvents(s: string)
    requires TwoTagInput(s)
    ensures Events(s, Html) ==
      [StartDocument] + ([StartTag(s[1..5], false, s[0..12], [Attribute("id", Some("a"))])] +
      ([StartTag(s[13..17], true, s[12..40], [Attribute("foo", Some("bar")), Attribute("bar", Some("foo"))])] +
      ([EndTag(s[13..17])] + [EndDocument])))
  {
    var t1, t2, r1, r2 := s[1..5], s[13..17], s[0..12], s[12..40];
    LenientTokens(s);
    TagsOfInput(s);
    OpenTagAttributes(r1);
    SelfClosedAttributes(r2, Html);
    var k1, k2 := StartToken(t1, false, r1), StartToken(t2, true, r2);
    EventsOf(s, Html, [k1, k2]);
    TwoTokensEvents(k1, k2, Html);
  }

  /** The strict callbacks: text, then the self-closed start tag. */
  lemma StrictEvents(s: string)
    requires TwoTagInput(s)
    ensures Events(s, Xml) ==
      [StartDocument] + ([AddText(s[0..12])] +
      ([StartTag(s[13..17], true, s[12..40], [Attribute("foo", Some("bar")), Attribute("bar", Some("foo"))])] +
      ([EndTag(s[13..17])] + [EndDocument])))
  {
    var t2, r1, r2 := s[13..17], s[0..12], s[12..40];
    StrictTokens(s);
    TagsOfInput(s);
    SelfClosedAttributes(r2, Xml);
    var k1, k2 := TextToken(r1), StartToken(t2, true, r2);
    EventsOf(s, Xml, [k1, k2]);
    TwoTokensEvents(k1, k2, Xml);
  }

  /** A node added while only one element is open becomes its child. */
  lemma IntoSoleFrame(t: string, a: seq<Attribute>, n: Node)
    requires Dedup(a) == a
    ensures Append(Push(Empty, t, a), n) == State([], [Frame(t, a, [n])])
  {
    var st := Push(Empty, t, a);
    assert Empty.open + [Frame(t, a, [])] == [Frame(t, a, [])];
    assert st.open == [Frame(t, a, [])];
    assert Container(st) + [n] == [n];
    assert st.open[..0] + [Frame(t, a, [n])] == [Frame(t, a, [n])];
  }

  /** Feeding the lenient callbacks to an HTML document. */
  lemma LenientRun(t1: string, t2: string, r1: string, r2: string, a1: seq<Attribute>, a2: seq<Attribute>)
    requires AutoCloseRule(Lower(t1)) == None && Lower(t1) !in VoidTags && Lower(t1) == "html"
    requires AutoCloseRule(Lower(t2)) == None && Lower(t2) !in VoidTags
    requires UniqueNames(a1) && UniqueNames(a2)
    ensures Run(HtmlFlavor, Empty,
      [StartDocument] + ([StartTag(t1, false, r1, a1)] + ([StartTag(t2, true, r2, a2)] + ([EndTag(t2)] + [EndDocument])))) ==
      Ok(State([Element(t1, a1, [Element(t2, a2, [])])], []))
  {
    DedupOfUnique(a1);
    DedupOfUnique(a2);
    var o1, o2 := StartTag(t1, false, r1, a1), StartTag(t2, true, r2, a2);
    var body := Element(t2, a2, []);
    var st1 := Push(Empty, t1, a1);
    var st2 := Push(st1, t2, a2);
    var st3 := State([], [Frame(t1, a1, [body])]);
    var st4 := State([Element(t1, a1, [body])], []);
    PlainOpens(Empty, t1, false, r1, a1);
    PlainOpens(st1, t2, true, r2, a2);
    EndInnermost(HtmlFlavor, st1, t2, a2);
    IntoSoleFrame(t1, a1, body);
    LenientEnd(t1, a1, body);
    RunOk(HtmlFlavor, Empty, StartDocument, [o1] + ([o2] + ([EndTag(t2)] + [EndDocument])), Empty);
    RunOk(HtmlFlavor, Empty, o1, [o2] + ([EndTag(t2)] + [EndDocument]), st1);
    RunOk(HtmlFlavor, st1, o2, [EndTag(t2)] + [EndDocument], st2);
    RunOk(HtmlFlavor, st2, EndTag(t2), [EndDocument], st3);
    RunOk(HtmlFlavor, st3, EndDocument, [], st4);
  }

  /** The single steps of the strict callbacks. */
  lemma StrictSteps(r1: string, t2: string, r2: string, a2: seq<Attribute>)
    requires r1 != [] && UniqueNames(a2)
    ensures Step(XmlFlavor, Empty, StartDocument) == Ok(Empty)
    ensures Step(XmlFlavor, Empty, AddText(r1)) == Ok(State([Text(r1)], []))
    ensures Step(XmlFlavor, State([Text(r1)], []), StartTag(t2, true, r2, a2)) == Ok(Push(State([Text(r1)], []), t2, a2))
    ensures Step(XmlFlavor, Push(State([Text(r1)], []), t2, a2), EndTag(t2)) == Ok(State([Text(r1), Element(t2, a2, [])], []))
    ensures Step(XmlFlavor, State([Text(r1), Element(t2, a2, [])], []), EndDocument) == Ok(State([Text(r1), Element(t2, a2, [])], []))
  {
    DedupOfUnique(a2);
    var body := Element(t2, a2, []);
    var st1 := State([Text(r1)], []);
    var st3 := State([Text(r1), body], []);
    assert AppendText(Empty, r1) == st1 by {
      assert Container(Empty) + [Text(r1)] == [Text(r1)];
    }
    EndInnermost(XmlFlavor, st1, t2, a2);
    assert Append(st1, body) == st3;
    StrictEnd(r1, body);
  }

  /** Feeding the strict callbacks to an XML document. */
  lemma StrictRun(r1: string, t2: string, r2: string, a2: seq<Attribute>)
    requires r1 != [] && UniqueNames(a2)
    ensures Run(XmlFlavor, Empty,
      [StartDocument] + ([AddText(r1)] + ([StartTag(t2, true, r2, a2)] + ([EndTag(t2)] + [EndDocument])))) ==
      Ok(State([Text(r1), Element(t2, a2, [])], []))
  {
    StrictSteps(r1, t2, r2, a2);
    var o2 := StartTag(t2, true, r2, a2);
    var st1 := State([Text(r1)], []);
    var st2 := Push(st1, t2, a2);
    var st3 := State([Text(r1), Element(t2, a2, [])], []);
    RunOk(XmlFlavor, Empty, StartDocument, [AddText(r1)] + ([o2] + ([EndTag(t2)] + [EndDocument])), Empty);
    RunOk(XmlFlavor, Empty, AddText(r1), [o2] + ([EndTag(t2)] + [EndDocument]), st1);
    RunOk(XmlFlavor, st1, o2, [EndTag(t2)] + [EndDocument], st2);
    RunOk(XmlFlavor, st2, EndTag(t2), [EndDocument], st3);
    RunOk(XmlFlavor, st3, EndDocument, [], st3);
  }

  lemma LenientBuild(s: string)
    requires TwoTagInput(s)
    ensures Build(HtmlFlavor, s) ==
      Ok([Element(s[1..5], [Attribute("id", Some("a"))],
                  [Element(s[13..17], [Attribute("foo", Some("bar")), Attribute("bar", Some("foo"))], [])])])
  {
    LenientEvents(s);
    LenientNames(s);
    RootIsHtml(s);
    LenientRun(s[1..5], s[13..17], s[0..12], s[12..40],
      [Attribute("id", Some("a"))], [Attribute("foo", Some("bar")), Attribute("bar", Some("foo"))]);
  }

  lemma StrictBuild(s: string)
    requires TwoTagInput(s)
    ensures Build(XmlFlavor, s) ==
      Ok([Text(s[0..12]), Element(s[13..17], [Attribute("foo", Some("bar")), Attribute("bar", Some("foo"))], [])])
  {
    StrictEvents(s);
    StrictRun(s[0..12], s[13..17], s[12..40], [Attribute("foo", Some("bar")), Attribute("bar", Some("foo"))]);
  }

  lemma TwoTagText()
    ensures TwoTagInput("<html i" + "d=a ><bo" + "dy foo='" + "bar' bar" + "=\"foo\" />")
    ensures ("<html i" + "d=a ><bo" + "dy foo='" + "bar' bar" + "=\"foo\" />")[1..5] == "html"
    ensures ("<html i" + "d=a ><bo" + "dy foo='" + "bar' bar" + "=\"foo\" />")[13..17] == "body"
    ensures ("<html i" + "d=a ><bo" + "dy foo='" + "bar' bar" + "=\"foo\" />")[0..12] == "<html id=a >"
  {
  }

  /** `XmlLightParser.Parse(notxml, htmlDocument)`: the root is `html` with
      the one attribute `id` = `a` and the one child `body`, whose
      attributes map `foo` to `bar` and `bar` to `foo`. */
  lemma LenientCase()
    ensures Build(HtmlFlavor, "<html i" + "d=a ><bo" + "dy foo='" + "bar' bar" + "=\"foo\" />") ==
      Ok([Element("html", [Attribute("id", Some("a"))],
                  [Element("body", [Attribute("foo", Some("bar")), Attribute("bar", Some("foo"))], [])])])
  {
    TwoTagText();
    LenientBuild("<html i" + "d=a ><bo" + "dy foo='" + "bar' bar" + "=\"foo\" />");
  }

  /** `XmlLightParser.Parse(notxml, AttributeFormat.Xml, xmlDocument)`: the
      first tag stays text and the root is `body` with its two attributes. */
  lemma StrictCase()
    ensures Build(XmlFlavor, "<html i" + "d=a ><bo" + "dy foo='" + "bar' bar" + "=\"foo\" />") ==
      Ok([Text("<html id=a >"),
          Element("body", [Attribute("foo", Some("bar")), Attribute("bar", Some("foo"))], [])])
  {
    TwoTagText();
    StrictBuild("<html i" + "d=a ><bo" + "dy foo='" + "bar' bar" + "=\"foo\" />");
  }
}
