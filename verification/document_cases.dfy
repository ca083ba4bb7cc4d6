/** The tree-level examples of the markup tests: a document built by hand
    and written out, element names with and without a prefix, the markup of
    a comment node, the inner text of an element, the HTML rule that makes
    consecutive paragraphs siblings, and a walk of the navigator.

    The test inputs are written as concatenations of short literals
    (`"bo" + "dy"`): the pieces denote the same string, but a single long
    literal makes the verifier unfold the scanners and the writer over every
    character at once. */
module DocumentCases {
  import opened Chars
  import opened Attributes
  import opened AttributeMaps
  import opened Tokenizer
  import opened Tree
  import opened Writing
  import opened BuildSpec
  import opened MarkupReading
  import opened ParseCases
  import opened Construction
  import opened Normalizing
  import opened Documents
  import opened NavigationSpec
  import opened Navigation

  // ----- a document built by hand -----

  /** The first element of an empty document goes to the top level. */
  lemma AppendToDocument(n: Node)
    ensures IsContainerPath([n], [0]) == n.Element?
    ensures AppendChild([], [], n) == [n]
  {
    assert [0][..0] == [];
  }

  /** An element appended under the sole top-level element. */
  lemma AppendUnderRoot(t: string, a: seq<Attribute>, n: Node)
    ensures AppendChild([Element(t, a, [])], [0], n) == [Element(t, a, [n])]
    ensures ChildrenAt([Element(t, a, [])], [0]) == []
  {
    var top := [Element(t, a, [])];
    var p: Path := [0];
    assert p[0] == 0 && p[1..] == [];
    assert AppendChild([], [], n) == [n];
    assert top[..0] + [Element(t, a, [n])] + top[1..] == [Element(t, a, [n])];
  }

  /** Attributes given to the sole child of the sole top-level element. */
  lemma AttributesOfChild(t: string, a: seq<Attribute>, b: string, x: seq<Attribute>)
    ensures IsContainerPath([Element(t, a, [Element(b, [], [])])], [0, 0])
    ensures NodeAt([Element(t, a, [Element(b, [], [])])], [0, 0]) == Element(b, [], [])
    ensures WithAttributes([Element(t, a, [Element(b, [], [])])], [0, 0],
      NodeAt([Element(t, a, [Element(b, [], [])])], [0, 0]).attrs + x) == [Element(t, a, [Element(b, x, [])])]
  {
    var inner := [Element(b, [], [])];
    var top := [Element(t, a, inner)];
    var p: Path := [0, 0];
    var q: Path := [0];
    assert p[0] == 0 && p[1..] == q && q[0] == 0 && q[1..] == [];
    assert p[..1] == q && q[..0] == [];
    assert ChildrenAt(top, q) == inner;
    assert NodeAt(top, p) == Element(b, [], []);
    assert [] + x == x;
    assert WithAttributes(inner, q, x) == [Element(b, x, [])] by {
      assert inner[..0] + [Element(b, x, [])] + inner[1..] == [Element(b, x, [])];
    }
    assert top[..0] + [Element(t, a, [Element(b, x, [])])] + top[1..] == [Element(t, a, [Element(b, x, [])])];
  }

  /** No line break, carriage return or tab. */
  predicate OnOneLine(s: string) {
    forall k :: 0 <= k < |s| ==> s[k] != '\r' && s[k] != '\n' && s[k] != '\t'
  }

  lemma BlankedConcat(x: string, y: string)
    ensures Blanked(x + y) == Blanked(x) + Blanked(y)
  {
    var r := Blanked(x + y);
    forall k | 0 <= k < |x + y| ensures r[k] == (Blanked(x) + Blanked(y))[k] {
      if k < |x| {
        assert (x + y)[k] == x[k];
      } else {
        assert (x + y)[k] == y[k - |x|];
      }
    }
  }

  lemma BlankedOneLine(x: string)
    requires OnOneLine(x)
    ensures Blanked(x) == x
  {
  }

  /** A run of spaces before a non-space folds into one. */
  lemma CollapseRun(r: string)
    requires r != [] && r[0] != ' '
    ensures Collapse(" " + r) == " " + Collapse(r)
    ensures Collapse("   " + r) == " " + Collapse(r)
  {
    assert (" " + r)[1..] == r;
    var two := " " + (" " + r);
    assert two[1..] == " " + r;
    assert "   " + r == " " + two && (" " + two)[1..] == two;
  }

  /** Folding the spaces of two pieces joined by one space. */
  lemma CollapseJoined(b: string, c: string)
    requires !HasDouble(b) && !HasDouble(c)
    requires b != [] && b[|b| - 1] != ' ' && c != [] && c[0] != ' '
    ensures Collapse(b + (" " + c)) == b + (" " + c)
  {
    CollapseConcat(b, " " + c);
    CollapseNoDouble(b);
    CollapseRun(c);
    CollapseNoDouble(c);
  }

  /** A piece without double spaces, then a run of three spaces. */
  lemma CollapseAfterRun(a: string, r: string)
    requires !HasDouble(a) && a != [] && a[|a| - 1] != ' '
    requires r != [] && r[0] != ' '
    ensures Collapse(a + ("   " + r)) == a + (" " + Collapse(r))
  {
    CollapseConcat(a, "   " + r);
    CollapseNoDouble(a);
    CollapseRun(r);
  }

  /** Folding the spaces of three pieces joined by a run of three spaces
      and by a single space. */
  lemma CollapseLines(a: string, b: string, c: string)
    requires !HasDouble(a) && !HasDouble(b) && !HasDouble(c)
    requires a != [] && a[|a| - 1] != ' '
    requires b != [] && b[0] != ' ' && b[|b| - 1] != ' '
    requires c != [] && c[0] != ' '
    ensures Collapse(a + "   " + b + " " + c) == a + " " + b + " " + c
  {
    var r := b + (" " + c);
    assert a + "   " + b + " " + c == a + ("   " + r);
    assert r[0] == b[0];
    CollapseAfterRun(a, r);
    CollapseJoined(b, c);
    assert a + (" " + r) == a + " " + b + " " + c;
  }

  /** Three pieces of markup laid out on lines (the second indented by two
      spaces) normalise to the pieces joined by single spaces. */
  lemma NormalizedLines(a: string, b: string, c: string)
    requires OnOneLine(a) && OnOneLine(b) && OnOneLine(c)
    requires !HasDouble(a) && !HasDouble(b) && !HasDouble(c)
    requires a != [] && !IsWhiteSpace(a[0]) && a[|a| - 1] != ' '
    requires b != [] && b[0] != ' ' && b[|b| - 1] != ' '
    requires c != [] && c[0] != ' ' && !IsWhiteSpace(c[|c| - 1])
    ensures Normalized(a + "\n  " + b + "\n" + c) == a + " " + b + " " + c
  {
    var m := a + "   " + b + " " + c;
    BlankedConcat(a, "\n  ");
    BlankedConcat(a + "\n  ", b);
    BlankedConcat(a + "\n  " + b, "\n");
    BlankedConcat(a + "\n  " + b + "\n", c);
    BlankedOneLine(a);
    BlankedOneLine(b);
    BlankedOneLine(c);
    assert Blanked("\n  ") == "   " && Blanked("\n") == " ";
    assert Blanked(a + "\n  " + b + "\n" + c) == m;
    assert m[0] == a[0] && m[|m| - 1] == c[|c| - 1];
    assert Trim(m) == m;
    CollapseLines(a, b, c);
  }

  /** An empty element is written as its start and end markup. */
  lemma RenderEmpty(b: string, x: seq<Attribute>, depth: nat)
    ensures Render(Element(b, x, []), depth, true) == "<" + b + RenderAttributes(x) + "></" + b + ">"
  {
    assert RenderContent([], depth, true) == RenderFlat([], depth + 1) == "";
  }

  lemma IndentedOne(n: Node)
    ensures RenderIndented([n], 1) == "\n  " + Render(n, 1, true)
  {
    assert RenderIndented([n][1..], 1) == "";
    assert Spaces(2) == "  ";
  }

  lemma ContentOne(n: Node)
    requires n.Element?
    ensures RenderContent([n], 0, true) == "\n  " + Render(n, 1, true) + "\n"
  {
    assert NoTextual([n]) by {
      assert forall k :: 0 <= k < |[n]| ==> [n][k] == n;
    }
    IndentedOne(n);
    assert Spaces(0) == "";
  }

  /** An element holding one element and no text puts it on its own line. */
  lemma RenderOneChild(t: string, n: Node)
    requires n.Element?
    ensures Render(Element(t, [], [n]), 0, true) == "<" + t + ">" + "\n  " + Render(n, 1, true) + "\n" + "</" + t + ">"
  {
    ContentOne(n);
    assert RenderAttributes([]) == "";
  }

  /** An element holding one empty element is written on three lines. */
  lemma RenderNested(t: string, b: string, x: seq<Attribute>)
    ensures DocumentXml([Element(t, [], [Element(b, x, [])])]) ==
      ("<" + t + ">") + "\n  " + ("<" + b + RenderAttributes(x) + "></" + b + ">") + "\n" + ("</" + t + ">")
  {
    var outer := Element(t, [], [Element(b, x, [])]);
    RenderEmpty(b, x, 1);
    RenderOneChild(t, Element(b, x, []));
    assert DocumentXml([outer]) == Render(outer, 0, true) by {
      assert DocumentXml([outer][1..]) == "";
    }
  }

  /** The markup pieces of the hand-built document. */
  lemma HandBuiltAttribute()
    ensures RenderAttributes([Attribute("i" + "d", Some("bd" + "y"))]) == " id=\"bdy\""
  {
    var v := "bd" + "y";
    assert '"' !in v;
    assert [Attribute("i" + "d", Some(v))][1..] == [];
  }

  lemma HandBuiltBody(body: string, b: string)
    requires body == "bo" + "dy"
    requires b == "<" + body + " id=\"bdy\"" + "></" + body + ">"
    ensures OnOneLine(b) && !HasDouble(b) && b[0] == '<' && b[|b| - 1] == '>'
  {
    assert b == "<body" + " id=\"bdy\">" + "</body>";
    assert forall k :: 0 <= k < |b| - 1 ==> b[k] != ' ' || b[k + 1] != ' ';
  }

  lemma HandBuiltOuter(html: string)
    requires html == "ht" + "ml"
    ensures OnOneLine("<" + html + ">") && OnOneLine("</" + html + ">")
    ensures !HasDouble("<" + html + ">") && !HasDouble("</" + html + ">")
  {
    assert "<" + html + ">" == "<html>" && "</" + html + ">" == "</html>";
  }

  /** The markup of the hand-built document, line breaks and indentation
      folded into single spaces. */
  lemma HandBuiltText(html: string, body: string, x: seq<Attribute>)
    requires html == "ht" + "ml" && body == "bo" + "dy" && x == [Attribute("i" + "d", Some("bd" + "y"))]
    ensures Normalized(DocumentXml([Element(html, [], [Element(body, x, [])])])) ==
      "<" + html + ">" + " " + ("<" + body + " id=\"bdy\"" + "></" + body + ">") + " " + ("</" + html + ">")
  {
    RenderNested(html, body, x);
    HandBuiltAttribute();
    var b := "<" + body + " id=\"bdy\"" + "></" + body + ">";
    HandBuiltBody(body, b);
    HandBuiltOuter(html);
    NormalizedLines("<" + html + ">", b, "</" + html + ">");
  }

  lemma HandBuiltSpelled(html: string, body: string)
    requires html == "ht" + "ml" && body == "bo" + "dy"
    ensures "<" + html + ">" + " " + ("<" + body + " id=\"bdy\"" + "></" + body + ">") + " " + ("</" + html + ">") ==
      "<html> <bo" + "dy id=\"bdy\"" + "></body> " + "</html>"
  {
  }

  /** `new XmlLightElement(new XmlLightElement(doc, t), b)` and
      `Attributes.Add(n, v)` on the new element, in an empty HTML document. */
  method BuildNested(t: string, b: string, n: string, v: string) returns (doc: LightDocument)
    ensures fresh(doc) && doc.flavor == HtmlFlavor && doc.open == []
    ensures doc.children == [Element(t, [], [Element(b, [Attribute(n, Some(v))], [])])]
  {
    doc := new LightDocument(HtmlFlavor);
    AppendToDocument(Element(t, [], []));
    var outer := doc.AppendElement([], t);
    assert outer == [0] && doc.children == [Element(t, [], [])];
    AppendUnderRoot(t, [], Element(b, [], []));
    var inner := doc.AppendElement(outer, b);
    ghost var before := doc.children;
    assert inner == [0, 0] && before == [Element(t, [], [Element(b, [], [])])];
    AttributesOfChild(t, [], b, [Attribute(n, Some(v))]);
    var added := doc.AddAttribute(inner, n, v);
  }

  /** The document built by hand writes, normalised, as
      `<html> <body id="bdy"></body> </html>`. */
  method DocToXml() returns (xml: string)
    ensures xml == "<html> <bo" + "dy id=\"bdy\"" + "></body> " + "</html>"
  {
    var html, body := "ht" + "ml", "bo" + "dy";
    var doc := BuildNested(html, body, "i" + "d", "bd" + "y");
    xml := Normalize(doc.InnerXml());
    HandBuiltText(html, body, [Attribute("i" + "d", Some("bd" + "y"))]);
    HandBuiltSpelled(html, body);
  }

  // ----- names -----

  /** A prefixed name splits at its colon; a plain name has no namespace. */
  lemma NameParts()
    ensures Namespace("a:b") == "a" && LocalName("a:b") == "b"
    ensures Namespace("p") == "" && LocalName("p") == "p"
  {
    assert ColonIndex("a:b", 0) == Some(1);
  }

  // ----- comments -----

  /** Whatever the dialect, a comment is one token, and the comment node
      writes back the markup it was read from. */
  lemma CommentMarkup(x: string, d: Dialect)
    requires ClosesOnlyAtEnd(x, "-->")
    ensures Tokens("<!--" + x + "-->", d) == [CommentToken(x)]
    ensures InnerXml(Comment(x)) == "<!--" + x + "-->"
  {
    var s := "<!--" + x + "-->";
    assert s[0..|s|] == s;
    AtIsSlice(s, 0, s);
    NextComment(s, 0, x);
    assert s == "<!" + ("--" + x + "-->");
    AtPrefix(s, 0, "<!", "--" + x + "-->");
    assert Next(s, 0, d) == Next(s, 0, Xml);
    assert Lex(s, 0, d) == [CommentToken(x)] + Lex(s, |s|, d);
  }

  /** No `-` in the content: the comment cannot close early. */
  lemma NoDashCloses(x: string)
    requires '-' !in x
    ensures ClosesOnlyAtEnd(x, "-->")
  {
    forall k | 0 <= k < |x| ensures !At(x + "-->", k, "-->") {
      assert (x + "-->")[k] == x[k];
      NotAt(x + "-->", k, "-->", 0);
    }
  }

  /** `<!-- comments included -->`: a comment node whose markup is the
      comment as written. */
  lemma CommentsIncluded(d: Dialect)
    ensures Tokens("<!--" + (" comments" + " included ") + "-->", d) == [CommentToken(" comments" + " included ")]
    ensures InnerXml(Comment(" comments" + " included ")) == "<!--" + (" comments" + " included ") + "-->"
  {
    var x := " comments" + " included ";
    assert '-' !in x;
    NoDashCloses(x);
    CommentMarkup(x, d);
  }

  // ----- paragraphs -----

  /** In HTML, opening a paragraph while a paragraph is the innermost open
      element closes that one first: it becomes the last child of the
      enclosing node and the new paragraph opens beside it. */
  lemma ParagraphClosesParagraph(st: State, name: string, a: seq<Attribute>)
    requires st.open != [] && Lower(st.open[|st.open| - 1].tag) == "p" && Lower(name) == "p"
    ensures StartTagStep(HtmlFlavor, st, name, a) == Push(Pop(st), name, a)
    ensures var f := st.open[|st.open| - 1];
      Container(Pop(st)) == Container(State(st.top, st.open[..|st.open| - 1])) + [Element(f.tag, f.attrs, f.children)]
  {
    var rule := CloseRule(["p"], ParagraphScope);
    assert AutoCloseRule(Lower(name)) == Some(rule);
    assert FindClosable(st.open, rule, |st.open|) == Some(|st.open| - 1);
    assert AutoCloseCount(st, name) == 1;
    assert PopN(st, 1) == Pop(st);
    assert Lower(name) !in VoidTags;
  }

  /** A paragraph opened directly inside a table cell, a division or the
      body closes nothing. */
  lemma ParagraphInScopeNests(st: State, name: string, a: seq<Attribute>)
    requires st.open != [] && Lower(st.open[|st.open| - 1].tag) in ParagraphScope && Lower(name) == "p"
    ensures StartTagStep(HtmlFlavor, st, name, a) == Push(st, name, a)
  {
    var rule := CloseRule(["p"], ParagraphScope);
    assert AutoCloseRule(Lower(name)) == Some(rule);
    assert Lower(st.open[|st.open| - 1].tag) != "p";
    assert FindClosable(st.open, rule, |st.open|) == None;
    assert Lower(name) !in VoidTags;
  }

  /** `<td><p class=1><p class=2>`: the second paragraph closes the first,
      so inside the cell they are siblings, the first one empty. */
  lemma ParagraphsAreSiblings(st: State, p1: string, r1: string, a1: seq<Attribute>,
                              p2: string, r2: string, a2: seq<Attribute>)
    requires st.open != [] && Lower(st.open[|st.open| - 1].tag) in ParagraphScope
    requires Lower(p1) == "p" && Lower(p2) == "p"
    ensures Run(HtmlFlavor, st, [StartTag(p1, false, r1, a1), StartTag(p2, false, r2, a2)]) ==
      Ok(Push(Append(st, Element(p1, Dedup(a1), [])), p2, a2))
  {
    var e1, e2 := StartTag(p1, false, r1, a1), StartTag(p2, false, r2, a2);
    ParagraphInScopeNests(st, p1, a1);
    var mid := Push(st, p1, a1);
    assert mid.open[|mid.open| - 1].tag == p1;
    ParagraphClosesParagraph(mid, p2, a2);
    assert mid.open[..|mid.open| - 1] == st.open;
    assert Pop(mid) == Append(st, Element(p1, Dedup(a1), []));
    var last := Push(Pop(mid), p2, a2);
    RunOk(HtmlFlavor, st, e1, [e2], mid);
    RunOk(HtmlFlavor, mid, e2, [], last);
    assert [e1, e2] == [e1] + [e2] && [e2] == [e2] + [];
  }

  // ----- the navigator -----

  /** A tree shaped like the body of the test document: the body (id `one`)
      holds a division (id `two`) with the text `Hi`, then a table cell
      holding two sibling paragraphs. */
  function Paragraph(c: string): Node {
    Element("p", [Attribute("class", Some(c))], [])
  }

  function Division(): Node {
    Element("div", [Attribute("id", Some("two"))], [Text("Hi")])
  }

  function Cell(): Node {
    Element("td", [], [Paragraph("1"), Paragraph("2")])
  }

  function Body(): Node {
    Element("body", [Attribute("id", Some("one")), Attribute("class", Some("cls"))], [Division(), Cell()])
  }

  function Sample(): seq<Node> {
    [Element("html", [], [Body()])]
  }

  /** The first paragraph, its sibling, the body and the division. */
  const FirstParagraph := Position([0, 0, 1, 0], None)
  const SecondParagraph := Position([0, 0, 1, 1], None)
  const BodyPosition := Position([0, 0], None)
  const DivPosition := Position([0, 0, 0], None)

  /** The child lists met on the way down to the paragraphs. */
  lemma SampleChildren()
    ensures ChildrenAt(Sample(), [0]) == [Body()]
    ensures ChildrenAt(Sample(), [0, 0]) == [Division(), Cell()]
    ensures ChildrenAt(Sample(), [0, 0, 1]) == [Paragraph("1"), Paragraph("2")]
  {
    var p3: Path := [0, 0, 1];
    var p2: Path := [0, 0];
    var p1: Path := [0];
    assert p3[1..] == [0, 1] && [0, 1][1..] == [1] && [1][1..] == [];
    assert p2[1..] == [0] && p1[1..] == [];
  }

  lemma SampleParagraphs()
    ensures ValidPosition(Sample(), FirstParagraph) && ValidPosition(Sample(), SecondParagraph)
    ensures MoveToPrevious(Sample(), FirstParagraph) == None
    ensures MoveToNext(Sample(), FirstParagraph) == Some(SecondParagraph)
    ensures MoveToPrevious(Sample(), SecondParagraph) == Some(FirstParagraph)
  {
    SampleChildren();
    var a: Path := [0, 0, 1, 0];
    var b: Path := [0, 0, 1, 1];
    assert Parent(a) == [0, 0, 1] && Parent(b) == [0, 0, 1];
    assert Parent(a) + [1] == b && Parent(b) + [0] == a;
  }

  /** No element of the cell, and none of the division's content, has the
      id `none-exists`; the division's id is `two`. */
  lemma CellHasNoSuchId(x: string)
    requires x != "one" && x != "two"
    ensures FindIdFrom([Paragraph("1"), Paragraph("2")], 0, x) == None
    ensures FindIdFrom([Cell()], 0, x) == None
    ensures FindIdFrom([Text("Hi")], 0, x) == None
    ensures FindIdFrom([Division(), Cell()], 0, x) == None
  {
    var ps := [Paragraph("1"), Paragraph("2")];
    assert Lookup([Attribute("class", Some("1"))], "id") == None;
    assert Lookup([Attribute("class", Some("2"))], "id") == None;
    assert FindIdFrom(ps, 2, x) == None;
    assert FindIdFrom(ps, 1, x) == None;
    assert FindIdFrom([Cell()], 1, x) == None;
    assert FindIdFrom([Text("Hi")], 1, x) == None;
    assert Lookup(Division().attrs, "id") == Some(Some("two"));
    assert FindIdFrom([Division(), Cell()], 1, x) == FindIdFrom([Cell()], 0, x) by {
      assert FindIdFrom([Division(), Cell()], 2, x) == None;
    }
  }

  /** The body is the first element with id `one`. */
  lemma SampleIdOne()
    ensures FindId(Sample(), "one") == Some([0, 0])
  {
    assert Lookup(Body().attrs, "id") == Some(Some("one"));
    assert FindIdFrom([Body()], 0, "one") == Some([0]);
    assert [0] + [0] == [0, 0];
  }

  /** No element of the sample has the id `none-exists`. */
  lemma SampleNoSuchId()
    ensures FindId(Sample(), "none-exists") == None
  {
    var x := "none-exists";
    CellHasNoSuchId(x);
    assert Lookup(Body().attrs, "id") == Some(Some("one"));
    assert FindIdFrom([Body()], 0, x) == None by {
      assert FindIdFrom([Body()], 1, x) == None;
    }
    assert FindIdFrom(Sample(), 1, x) == None;
    assert Lookup([], "id") == None;
  }

  lemma SampleIds()
    ensures MoveToId(Sample(), "one") == Some(BodyPosition)
    ensures ValidPosition(Sample(), BodyPosition) && NameAt(Sample(), BodyPosition) == "body"
    ensures MoveToId(Sample(), "none-exists") == None
  {
    SampleChildren();
    SampleIdOne();
    SampleNoSuchId();
    var p: Path := [0, 0];
    assert Parent(p) == [0] && [0] + [0] == p;
  }

  lemma SampleText()
    ensures ValidPosition(Sample(), DivPosition) && ValueAt(Sample(), DivPosition) == "Hi"
  {
    SampleChildren();
    var p: Path := [0, 0, 0];
    assert Parent(p) == [0, 0];
    assert NodeAt(Sample(), p) == Division();
    assert NodesText([Text("Hi")]) == "Hi" + NodesText([]);
  }

  /** From the document node down to the first paragraph: first child
      three times, to the next sibling, and first child once more. */
  lemma SampleDescent()
    ensures MoveToFirstChild(Sample(), DocumentPosition) == Some(Position([0], None))
    ensures MoveToFirstChild(Sample(), Position([0], None)) == Some(BodyPosition)
    ensures MoveToFirstChild(Sample(), BodyPosition) == Some(DivPosition)
    ensures MoveToNext(Sample(), DivPosition) == Some(Position([0, 0, 1], None))
    ensures MoveToFirstChild(Sample(), Position([0, 0, 1], None)) == Some(FirstParagraph)
  {
    SampleChildren();
    var d: Path := [0, 0, 0];
    assert Parent(d) == [0, 0] && Parent(d) + [1] == [0, 0, 1];
    assert [0, 0] + [0] == d && [0] + [0] == [0, 0] && [0, 0, 1] + [0] == FirstParagraph.path;
  }

  /** A new navigator over the sample, moved onto the first paragraph. */
  method OnFirstParagraph(doc: LightDocument) returns (nav: Navigator)
    requires doc.children == Sample()
    ensures fresh(nav) && nav.doc == doc && nav.top == Sample() && nav.pos == FirstParagraph
  {
    SampleDescent();
    nav := new Navigator(doc);
    var moved := nav.MoveToFirstChild();
    moved := nav.MoveToFirstChild();
    moved := nav.MoveToFirstChild();
    moved := nav.MoveToNext();
    moved := nav.MoveToFirstChild();
  }

  /** The navigator test: from the first paragraph there is no previous
      sibling; next and back again is the same position as a clone left
      there; there are no namespace nodes; the clone shares the name table;
      the id `one` leads to the body, and an unknown id fails and leaves
      the cursor on the body. */
  method NavigatorWalk(doc: LightDocument)
    returns (prev: bool, next: bool, back: bool, same: bool, namespaces: bool, shared: bool,
             toOne: bool, nameOne: string, toNone: bool, nameAfter: string)
    requires doc.children == Sample()
    ensures !prev && next && back && same && !namespaces && shared
    ensures toOne && nameOne == "body" && !toNone && nameAfter == "body"
  {
    SampleParagraphs();
    SampleIds();
    var nav := OnFirstParagraph(doc);
    var pos := nav.Clone();
    prev := nav.MoveToPrevious();
    next := nav.MoveToNext();
    back := nav.MoveToPrevious();
    same := nav.IsSamePosition(pos);
    var first := nav.MoveToFirstNamespace();
    var later := nav.MoveToNextNamespace();
    namespaces := first || later;
    shared := nav.nameTable == pos.nameTable;
    toOne := nav.MoveToId("one");
    nameOne := nav.Name();
    toNone := nav.MoveToId("none-exists");
    nameAfter := nav.Name();
  }
}
