/** The text a document holds is the text the parser saw: building a tree
    neither loses nor reorders text and CDATA content, and markup,
    comments, instructions and control constructs contribute none. */
module TextFacts {
  import opened Chars
  import opened Attributes
  import opened Tokenizer
  import opened Tree
  import opened TreeFacts
  import opened BuildSpec
  import opened BuildFacts

  function FramesText(fs: seq<Frame>): string {
    if fs == [] then "" else NodesText(fs[0].children) + FramesText(fs[1..])
  }

  /** All text below the builder state: the finished top-level nodes, then
      each open element's children, outermost first. */
  function StateText(st: State): string {
    NodesText(st.top) + FramesText(st.open)
  }

  /** The text in front of the innermost container. */
  function OuterText(st: State): string {
    if st.open == [] then "" else NodesText(st.top) + FramesText(st.open[..|st.open| - 1])
  }

  lemma {:induction false} FramesTextSnoc(fs: seq<Frame>, f: Frame)
    ensures FramesText(fs + [f]) == FramesText(fs) + NodesText(f.children)
    decreases |fs|
  {
    if fs == [] {
      assert FramesText([f]) == NodesText(f.children) + FramesText([]);
    } else {
      assert (fs + [f])[1..] == fs[1..] + [f];
      FramesTextSnoc(fs[1..], f);
    }
  }

  lemma ContainerText(st: State, ch: seq<Node>)
    ensures StateText(st) == OuterText(st) + NodesText(Container(st))
    ensures StateText(WithContainer(st, ch)) == OuterText(st) + NodesText(ch)
  {
    if st.open != [] {
      var n := |st.open|;
      var f := st.open[n - 1];
      assert st.open == st.open[..n - 1] + [f];
      FramesTextSnoc(st.open[..n - 1], f);
      FramesTextSnoc(st.open[..n - 1], Frame(f.tag, f.attrs, ch));
    }
  }

  lemma NodeText(n: Node)
    ensures NodesText([n]) == InnerText(n)
  {
    assert [n][1..] == [];
  }

  lemma AppendNodeText(st: State, n: Node)
    ensures StateText(Append(st, n)) == StateText(st) + InnerText(n)
  {
    ContainerText(st, Container(st) + [n]);
    NodesTextConcat(Container(st), [n]);
    NodeText(n);
  }

  lemma AppendTextText(st: State, x: string)
    ensures StateText(AppendText(st, x)) == StateText(st) + x
  {
    var ch := Container(st);
    if x != [] && ch != [] && ch[|ch| - 1].Text? {
      var k := |ch| - 1;
      var merged := ch[..k] + [Text(ch[k].text + x)];
      ContainerText(st, merged);
      assert ch == ch[..k] + [ch[k]];
      NodesTextConcat(ch[..k], [ch[k]]);
      NodesTextConcat(ch[..k], [Text(ch[k].text + x)]);
      NodeText(ch[k]);
      NodeText(Text(ch[k].text + x));
    } else if x != [] {
      AppendNodeText(st, Text(x));
    }
  }

  lemma PushText(st: State, name: string, attrs: seq<Attribute>)
    ensures StateText(Push(st, name, attrs)) == StateText(st)
  {
    FramesTextSnoc(st.open, Frame(name, AttributeMaps.Dedup(attrs), []));
  }

  /** Closing an element moves its children's text into the parent: the
      document's text is unchanged. */
  lemma PopText(st: State)
    requires st.open != []
    ensures StateText(Pop(st)) == StateText(st)
  {
    var n := |st.open|;
    var f := st.open[n - 1];
    var outer := State(st.top, st.open[..n - 1]);
    assert st.open == st.open[..n - 1] + [f];
    FramesTextSnoc(st.open[..n - 1], f);
    AppendNodeText(outer, Element(f.tag, f.attrs, f.children));
  }

  lemma {:induction false} PopNText(st: State, n: nat)
    requires n <= |st.open|
    ensures StateText(PopN(st, n)) == StateText(st)
    decreases n
  {
    if n > 0 {
      PopText(st);
      PopNText(Pop(st), n - 1);
    }
  }

  /** The text a callback adds. */
  function EventText(e: Event): string {
    match e
    case AddText(x) => x
    case AddCData(x) => x
    case _ => ""
  }

  lemma StepText(f: Flavor, st: State, e: Event)
    requires !e.StartDocument? && !e.EndDocument? && Step(f, st, e).Ok?
    ensures StateText(Step(f, st, e).value) == StateText(st) + EventText(e)
  {
    match e
    case StartTag(n, _, _, a) =>
      if f == HtmlFlavor {
        var closed := PopN(st, AutoCloseCount(st, n));
        PopNText(st, AutoCloseCount(st, n));
        PushText(closed, n, a);
        if Lower(n) in VoidTags {
          PopText(Push(closed, n, a));
        }
      } else {
        PushText(st, n, a);
      }
    case EndTag(n) =>
      if f == HtmlFlavor {
        PopNText(st, EndTagCount(st, n));
      } else {
        PopText(st);
      }
    case AddText(x) => AppendTextText(st, x);
    case AddCData(x) => AppendNodeText(st, CData(x));
    case AddComment(x) => AppendNodeText(st, Comment(x));
    case AddInstruction(x) => AppendNodeText(st, Instruction(x));
    case AddControl(x) => AppendNodeText(st, Control(x));
  }

  lemma TokenRunText(f: Flavor, st: State, t: Token, d: Dialect)
    requires Run(f, st, TokenEvents(t, d)).Ok?
    ensures StateText(Run(f, st, TokenEvents(t, d)).value) == StateText(st) + TokenText(t)
  {
    var es := TokenEvents(t, d);
    var next := Step(f, st, es[0]);
    StepText(f, st, es[0]);
    if |es| == 2 {
      assert es[1..][1..] == [];
      var last := Step(f, next.value, es[1]);
      StepText(f, next.value, es[1]);
      assert Run(f, next.value, es[1..]) == last;
      assert EventText(es[0]) == "" && EventText(es[1]) == "" && TokenText(t) == "";
    } else {
      assert es[1..] == [];
      assert EventText(es[0]) == TokenText(t);
    }
  }

  /** Feeding the callbacks of a run of tokens adds exactly their text. */
  lemma {:induction false} TokensRunText(f: Flavor, st: State, ts: seq<Token>, d: Dialect)
    requires Run(f, st, TokensEvents(ts, d)).Ok?
    ensures StateText(Run(f, st, TokensEvents(ts, d)).value) == StateText(st) + TokensText(ts)
    decreases |ts|
  {
    if ts != [] {
      var head := TokenEvents(ts[0], d);
      RunConcat(f, st, head, TokensEvents(ts[1..], d));
      var mid := Run(f, st, head).value;
      TokenRunText(f, st, ts[0], d);
      TokensRunText(f, mid, ts[1..], d);
    }
  }

  /** A document holds exactly the text and CDATA content of its source, in
      source order: `InnerText` of a parsed document agrees with the
      tree-less text extraction of the same input. */
  lemma BuildKeepsText(f: Flavor, text: string)
    requires Build(f, text).Ok?
    ensures NodesText(Build(f, text).value) == TokensText(Tokens(text, DialectOf(f)))
    ensures f == HtmlFlavor ==> NodesText(Build(f, text).value) == ParseText(text)
  {
    var d := DialectOf(f);
    var ts := Tokens(text, d);
    var es := Events(text, d);
    var body := TokensEvents(ts, d);
    assert es == [StartDocument] + body + [EndDocument];
    RunConcat(f, Empty, [StartDocument], body + [EndDocument]);
    assert [StartDocument] + (body + [EndDocument]) == es;
    assert Run(f, Empty, [StartDocument]) == Ok(Empty);
    RunConcat(f, Empty, body, [EndDocument]);
    var mid := Run(f, Empty, body).value;
    TokensRunText(f, Empty, ts, d);
    assert StateText(Empty) == "";
    match CloseAll(f, mid)
    case Ok(closed) =>
      if f == HtmlFlavor {
        PopNText(mid, |mid.open|);
      }
      assert closed.open == [];
      assert StateText(closed) == NodesText(closed.top);
      assert Run(f, mid, [EndDocument]) == Ok(closed);
    case Err(_) =>
  }
}
