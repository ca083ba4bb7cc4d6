/** Reading written markup back, second step: the strict document built
    from the tokens of a writable tree is that tree, so a document written
    out and parsed again as XML writes out the same markup. */
module TreeReading {
  import opened Chars
  import opened Attributes
  import opened AttributeMaps
  import opened Tokenizer
  import opened Tree
  import opened Writing
  import opened MarkupReading
  import opened LexSteps
  import opened TokenReading
  import opened BuildSpec
  import opened BuildFacts

  /** The strict builder, started in `st`, takes the callbacks of `ts` and
      ends in `r`. */
  predicate Reads(st: State, ts: seq<Token>, r: State) {
    RunXml(st, Feed(ts)) == Ok(r)
  }

  function RunXml(st: State, es: seq<Event>): Result<State> {
    Run(XmlFlavor, st, es)
  }

  function Feed(ts: seq<Token>): seq<Event> {
    TokensEvents(ts, Xml)
  }

  /** Text appended here is a node of its own: it is not merged into a
      preceding text node. */
  predicate TextMayFollow(st: State) {
    var ch := Container(st);
    ch == [] || !ch[|ch| - 1].Text?
  }

  // ----- callbacks of token lists -----

  lemma {:induction false} TokensEventsConcat(a: seq<Token>, b: seq<Token>, d: Dialect)
    ensures TokensEvents(a + b, d) == TokensEvents(a, d) + TokensEvents(b, d)
    decreases |a|
  {
    if a == [] {
      assert a + b == b;
    } else {
      assert (a + b)[0] == a[0] && (a + b)[1..] == a[1..] + b;
      TokensEventsConcat(a[1..], b, d);
    }
  }

  lemma ReadsConcat(st: State, a: seq<Token>, mid: State, b: seq<Token>, r: State)
    requires Reads(st, a, mid) && Reads(mid, b, r)
    ensures Reads(st, a + b, r)
  {
    TokensEventsConcat(a, b, Xml);
    RunConcat(XmlFlavor, st, TokensEvents(a, Xml), TokensEvents(b, Xml));
  }

  /** A token with a single callback is read by one step of the builder. */
  lemma ReadsOne(st: State, tok: Token, e: Event, r: State)
    requires TokenEvents(tok, Xml) == [e] && Step(XmlFlavor, st, e) == Ok(r)
    ensures Reads(st, [tok], r)
  {
    assert Feed([tok]) == [e] by {
      assert TokensEvents([tok], Xml) == [e] + TokensEvents([tok][1..], Xml);
      assert [tok][1..] == [] && [e] + [] == [e];
    }
    assert RunXml(st, [e]) == Ok(r) by {
      assert [e][1..] == [];
      assert Run(XmlFlavor, r, []) == Ok(r);
      assert Run(XmlFlavor, st, [e]) == Run(XmlFlavor, r, [e][1..]);
    }
  }

  // ----- the builder state -----

  lemma WithContainerSame(st: State)
    ensures WithContainer(st, Container(st)) == st
  {
  }

  lemma WithContainerTwice(st: State, a: seq<Node>, b: seq<Node>)
    ensures WithContainer(WithContainer(st, a), b) == WithContainer(st, b)
  {
  }

  /** Written attributes all carry values, so reading them gives them back. */
  lemma ValuateOfValued(a: seq<Attribute>)
    requires forall k :: 0 <= k < |a| ==> a[k].value.Some?
    ensures Valuate(a) == a
  {
    assert forall k :: 0 <= k < |a| ==> Valuate(a)[k] == a[k];
  }

  // ----- one node, then a sequence -----

  lemma ReadLeaf(st: State, n: Node)
    requires Writable(n) && !n.Element? && (n.Text? ==> TextMayFollow(st))
    ensures Reads(st, NodeTokens(n), Append(st, n))
  {
    match n
    case Text(x) => ReadsOne(st, TextToken(x), AddText(x), Append(st, n));
    case CData(x) => ReadsOne(st, CDataToken(x), AddCData(x), Append(st, n));
    case Comment(x) => ReadsOne(st, CommentToken(x), AddComment(x), Append(st, n));
    case Instruction(x) => ReadsOne(st, InstructionToken(x), AddInstruction(x), Append(st, n));
    case Control(x) => ReadsOne(st, ControlToken(x), AddControl(x), Append(st, n));
  }

  /** A written start tag opens an element with exactly its attributes. */
  lemma ReadStartTag(st: State, t: string, a: seq<Attribute>)
    requires IsName(t) && WritableAttributes(a)
    requires forall k :: 0 <= k < |a| ==> a[k].value.Some?
    ensures Reads(st, [StartToken(t, false, StartMarkup(t, a))], State(st.top, st.open + [Frame(t, a, [])]))
  {
    var raw := StartMarkup(t, a);
    assert ParseAttributes(raw, Xml) == a by {
      ParseStartMarkup(t, a, Xml);
      ValuateOfValued(a);
    }
    StartTagEvent(t, raw, a);
    DedupOfUnique(a);
    ReadsOne(st, StartToken(t, false, raw), StartTag(t, false, raw, a), Push(st, t, a));
  }

  lemma StartTagEvent(t: string, raw: string, a: seq<Attribute>)
    requires ParseAttributes(raw, Xml) == a
    ensures TokenEvents(StartToken(t, false, raw), Xml) == [StartTag(t, false, raw, a)]
  {
  }

  /** A written end tag closes the innermost element, which has its name. */
  lemma ReadEndTag(st: State, t: string)
    requires st.open != [] && st.open[|st.open| - 1].tag == t
    ensures Reads(st, [EndToken(t, EndMarkup(t))], Pop(st))
  {
    ReadsOne(st, EndToken(t, EndMarkup(t)), EndTag(t), Pop(st));
  }

  /** Closing the element just filled with `ch` appends it to the node
      that contains it. */
  lemma CloseFilled(st: State, t: string, a: seq<Attribute>, ch: seq<Node>)
    ensures Pop(WithContainer(State(st.top, st.open + [Frame(t, a, [])]), ch)) ==
      Append(st, Element(t, a, ch))
  {
    var st1 := State(st.top, st.open + [Frame(t, a, [])]);
    assert st1.open[..|st1.open| - 1] == st.open;
  }

  /** The strict builder turns the tokens of a writable, valued node into
      that node, appended where the builder stands. */
  lemma {:induction false} ReadNode(st: State, n: Node)
    requires Writable(n) && Valued(n) && (n.Text? ==> TextMayFollow(st))
    ensures Reads(st, NodeTokens(n), Append(st, n))
    decreases n, 1
  {
    if n.Element? {
      var t, a, ch := n.tag, n.attrs, n.children;
      var open := [StartToken(t, false, StartMarkup(t, a))];
      var close := [EndToken(t, EndMarkup(t))];
      var st1 := State(st.top, st.open + [Frame(t, a, [])]);
      var st2 := WithContainer(st1, ch);
      ReadStartTag(st, t, a);
      ReadSeq(st1, ch);
      assert Container(st1) + ch == ch;
      ReadEndTag(st2, t);
      CloseFilled(st, t, a, ch);
      ReadsConcat(st, open, st1, SeqTokens(ch), st2);
      ReadsConcat(st, open + SeqTokens(ch), st2, close, Append(st, n));
    } else {
      ReadLeaf(st, n);
    }
  }

  lemma ReadableTail(ns: seq<Node>)
    requires ns != [] && WritableSeq(ns) && ValuedSeq(ns)
    ensures Writable(ns[0]) && Valued(ns[0]) && WritableSeq(ns[1..]) && ValuedSeq(ns[1..])
    ensures |ns| > 1 && ns[1].Text? ==> !ns[0].Text?
  {
    WritableTail(ns);
    assert forall k :: 0 <= k < |ns[1..]| ==> ns[1..][k] == ns[k + 1];
  }

  /** The strict builder turns the tokens of a writable, valued sequence
      into that sequence, appended to the innermost open node. */
  lemma {:induction false} ReadSeq(st: State, ns: seq<Node>)
    requires WritableSeq(ns) && ValuedSeq(ns)
    requires ns != [] && ns[0].Text? ==> TextMayFollow(st)
    ensures Reads(st, SeqTokens(ns), WithContainer(st, Container(st) + ns))
    decreases ns, 0
  {
    if ns == [] {
      assert Container(st) + ns == Container(st);
      WithContainerSame(st);
    } else {
      var mid := AppendHead(st, ns);
      ReadNode(st, ns[0]);
      ReadSeq(mid, ns[1..]);
      ReadsConcat(st, NodeTokens(ns[0]), mid, SeqTokens(ns[1..]), WithContainer(st, Container(st) + ns));
    }
  }

  /** The state after the head of a sequence is read, and what it takes of
      the tail. */
  lemma AppendHead(st: State, ns: seq<Node>) returns (mid: State)
    requires ns != [] && WritableSeq(ns) && ValuedSeq(ns)
    requires ns[0].Text? ==> TextMayFollow(st)
    ensures mid == Append(st, ns[0])
    ensures Writable(ns[0]) && Valued(ns[0]) && WritableSeq(ns[1..]) && ValuedSeq(ns[1..])
    ensures ns[1..] != [] && ns[1..][0].Text? ==> TextMayFollow(mid)
    ensures WithContainer(mid, Container(mid) + ns[1..]) == WithContainer(st, Container(st) + ns)
  {
    mid := Append(st, ns[0]);
    ReadableTail(ns);
    assert Container(mid) + ns[1..] == Container(st) + ns;
    WithContainerTwice(st, Container(st) + [ns[0]], Container(st) + ns);
  }

  // ----- whole documents -----

  /** The strict lexer cuts the flat markup of a writable sequence into
      exactly the sequence's tokens. */
  lemma TokensOfFlat(top: seq<Node>)
    requires WritableSeq(top)
    ensures Tokens(FlatSeq(top), Xml) == SeqTokens(top)
  {
    var s := FlatSeq(top);
    AtIsSlice(s, 0, s);
    assert s[0..|s|] == s;
    LexSeq(s, 0, top);
    assert LexAt(s, |s|) == [];
    assert SeqTokens(top) + [] == SeqTokens(top);
  }

  /** The last callback accepts a finished strict document with a root. */
  lemma EndOfRead(top: seq<Node>)
    requires FirstElement(top).Some?
    ensures Run(XmlFlavor, State(top, []), [EndDocument]) == Ok(State(top, []))
  {
    assert [EndDocument][1..] == [];
  }

  /** `new XmlLightDocument(markup)` on the flat markup of a writable tree
      with a root element gives back that tree, node for node. */
  lemma FlatReadsBack(top: seq<Node>)
    requires WritableSeq(top) && ValuedSeq(top) && FirstElement(top).Some?
    ensures Build(XmlFlavor, FlatSeq(top)) == Ok(top)
  {
    var s := FlatSeq(top);
    var body := TokensEvents(SeqTokens(top), Xml);
    TokensOfFlat(top);
    assert Events(s, Xml) == [StartDocument] + body + [EndDocument];
    ReadSeq(Empty, top);
    assert WithContainer(Empty, Container(Empty) + top) == State(top, []);
    RunConcat(XmlFlavor, Empty, [StartDocument], body);
    assert Run(XmlFlavor, Empty, [StartDocument]) == Ok(Empty) by {
      assert [StartDocument][1..] == [];
    }
    RunConcat(XmlFlavor, Empty, [StartDocument] + body, [EndDocument]);
    EndOfRead(top);
  }

  /** The tree a document's written markup describes: each top-level node
      with the line breaks and indentation that writing adds. */
  function IndentedDocument(top: seq<Node>): (r: seq<Node>)
    ensures |r| == |top|
    ensures forall k :: 0 <= k < |top| ==> r[k] == Indented(top[k], 0, true)
  {
    if top == [] then [] else [Indented(top[0], 0, true)] + IndentedDocument(top[1..])
  }

  /** Writing a document writes the flat markup of its indented tree. */
  lemma {:induction false} DocumentXmlIsFlat(top: seq<Node>)
    ensures FlatSeq(IndentedDocument(top)) == DocumentXml(top)
    decreases |top|
  {
    if top != [] {
      assert IndentedDocument(top)[1..] == IndentedDocument(top[1..]);
      IndentedIsRender(top[0], 0, true);
      DocumentXmlIsFlat(top[1..]);
    }
  }

  /** Writing a document's indented tree writes the same markup again. */
  lemma {:induction false} DocumentXmlOfIndented(top: seq<Node>)
    ensures DocumentXml(IndentedDocument(top)) == DocumentXml(top)
    decreases |top|
  {
    if top != [] {
      assert IndentedDocument(top)[1..] == IndentedDocument(top[1..]);
      RenderIndentedTree(top[0], 0, true, 0, true);
      DocumentXmlOfIndented(top[1..]);
    }
  }

  /** Indenting keeps each node's kind. */
  lemma IndentedKind(n: Node, depth: nat, indent: bool)
    ensures Indented(n, depth, indent).Text? <==> n.Text?
    ensures Indented(n, depth, indent).Element? <==> n.Element?
  {
  }

  /** Indenting keeps the tree writable, valued, and rooted. */
  lemma IndentedDocumentWritable(top: seq<Node>)
    requires WritableSeq(top) && FirstElement(top).Some?
    ensures WritableSeq(IndentedDocument(top)) && ValuedSeq(IndentedDocument(top))
    ensures FirstElement(IndentedDocument(top)).Some?
  {
    var r := IndentedDocument(top);
    forall k | 0 <= k < |r| ensures Writable(r[k]) && Valued(r[k]) {
      IndentedWritable(top[k], 0, true);
    }
    forall k | 0 <= k < |r| - 1 ensures !(r[k].Text? && r[k + 1].Text?) {
      IndentedKind(top[k], 0, true);
      IndentedKind(top[k + 1], 0, true);
    }
    var k :| 0 <= k < |top| && top[k].Element?;
    IndentedKind(top[k], 0, true);
  }

  /** `new XmlLightDocument(doc.InnerXml)`: the strict parse of a written
      document gives back the document with its indentation as text. */
  lemma DocumentReadsBack(top: seq<Node>)
    requires WritableSeq(top) && FirstElement(top).Some?
    ensures Build(XmlFlavor, DocumentXml(top)) == Ok(IndentedDocument(top))
  {
    IndentedDocumentWritable(top);
    DocumentXmlIsFlat(top);
    FlatReadsBack(IndentedDocument(top));
  }

  /** Writing a document, parsing the markup as XML and writing the result
      gives the same markup: `doc.InnerXml == doc2.InnerXml`. */
  lemma ReparseKeepsInnerXml(top: seq<Node>)
    requires WritableSeq(top) && FirstElement(top).Some?
    ensures Build(XmlFlavor, DocumentXml(top)).Ok?
    ensures DocumentXml(Build(XmlFlavor, DocumentXml(top)).value) == DocumentXml(top)
  {
    DocumentReadsBack(top);
    DocumentXmlOfIndented(top);
  }
}
