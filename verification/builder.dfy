/** The tree builder: the reader that turns the parser's callbacks into a
    document.  `BuildSpec` gives each callback's effect as a function of the
    builder state; `Documents` holds the document class that performs them
    in place on its open-element stack. */
module BuildSpec {
  import opened Chars
  import opened Attributes
  import opened AttributeMaps
  import opened Tokenizer
  import opened Tree

  /** `XmlLightDocument` (strict) or `HtmlLightDocument` (tolerant). */
  datatype Flavor = XmlFlavor | HtmlFlavor

  datatype ParseError =
    | NoRootElement
    | UnclosedTag(tag: string)
    | MismatchedClosingTag(tag: string)
    | RootNotHtml(tag: string)

  datatype Result<T> = Ok(value: T) | Err(error: ParseError)

  /** An element still open: its children so far. */
  datatype Frame = Frame(tag: string, attrs: seq<Attribute>, children: seq<Node>)

  /** The document's top-level nodes so far and the open-element stack
      (last = innermost). */
  datatype State = State(top: seq<Node>, open: seq<Frame>)

  const Empty := State([], [])

  // ----- appending to the innermost open node -----

  function Container(st: State): seq<Node> {
    if st.open == [] then st.top else st.open[|st.open| - 1].children
  }

  function WithContainer(st: State, ch: seq<Node>): (r: State)
    ensures Container(r) == ch && |r.open| == |st.open|
  {
    if st.open == [] then State(ch, [])
    else
      var f := st.open[|st.open| - 1];
      State(st.top, st.open[..|st.open| - 1] + [Frame(f.tag, f.attrs, ch)])
  }

  function Append(st: State, n: Node): (r: State)
    ensures Container(r) == Container(st) + [n] && |r.open| == |st.open|
  {
    WithContainer(st, Container(st) + [n])
  }

  /** Text next to text is merged into one node; empty text adds nothing. */
  function AppendText(st: State, x: string): (r: State)
    ensures |r.open| == |st.open|
  {
    var ch := Container(st);
    if x == [] then st
    else if ch != [] && ch[|ch| - 1].Text? then
      WithContainer(st, ch[..|ch| - 1] + [Text(ch[|ch| - 1].text + x)])
    else Append(st, Text(x))
  }

  function Push(st: State, name: string, attrs: seq<Attribute>): (r: State)
    ensures |r.open| == |st.open| + 1
  {
    State(st.top, st.open + [Frame(name, Dedup(attrs), [])])
  }

  /** Closes the innermost open element: it becomes the last child of the
      node that contains it. */
  function Pop(st: State): (r: State)
    requires st.open != []
    ensures |r.open| == |st.open| - 1
  {
    var f := st.open[|st.open| - 1];
    Append(State(st.top, st.open[..|st.open| - 1]), Element(f.tag, f.attrs, f.children))
  }

  function PopN(st: State, n: nat): (r: State)
    requires n <= |st.open|
    ensures |r.open| == |st.open| - n
    decreases n
  {
    if n == 0 then st else PopN(Pop(st), n - 1)
  }

  // ----- the HTML rule table -----

  /** Elements that never have content nor a closing tag. */
  const VoidTags: seq<string> :=
    ["area", "base", "basefont", "br", "col", "embed", "frame", "hr", "img",
     "input", "isindex", "link", "meta", "param", "source", "track", "wbr"]

  /** Opening a tag with a rule closes the nearest open element named in
      `closes`, unless an element named in `scope` is met first. */
  datatype CloseRule = CloseRule(closes: seq<string>, scope: seq<string>)

  /** The elements that stop a new paragraph from closing an open one. */
  const ParagraphScope: seq<string> := ["html", "body", "div", "td", "th", "li", "table", "blockquote", "form"]

  function AutoCloseRule(tag: string): Option<CloseRule> {
    if tag == "p" then
      Some(CloseRule(["p"], ParagraphScope))
    else if tag == "li" then Some(CloseRule(["li"], ["ul", "ol"]))
    else if tag == "dt" || tag == "dd" then Some(CloseRule(["dt", "dd"], ["dl"]))
    else if tag == "td" || tag == "th" then Some(CloseRule(["td", "th"], ["tr", "table"]))
    else if tag == "tr" then Some(CloseRule(["tr"], ["table", "thead", "tbody", "tfoot"]))
    else if tag == "thead" || tag == "tbody" || tag == "tfoot" then
      Some(CloseRule(["thead", "tbody", "tfoot"], ["table"]))
    else if tag == "option" then Some(CloseRule(["option"], ["select", "datalist", "optgroup"]))
    else None
  }

  /** Searching the open elements below index `k`, innermost first: the
      index of the element the rule closes, if the scope lets it be reached. */
  function FindClosable(open: seq<Frame>, rule: CloseRule, k: nat): (r: Option<nat>)
    requires k <= |open|
    ensures r.Some? ==> r.value < k && Lower(open[r.value].tag) in rule.closes
    ensures r.Some? ==> forall j :: r.value < j < k ==>
      Lower(open[j].tag) !in rule.closes && Lower(open[j].tag) !in rule.scope
    ensures r.None? ==> forall j :: 0 <= j < k && Lower(open[j].tag) in rule.closes ==>
      exists m :: j < m < k && Lower(open[m].tag) in rule.scope
  {
    if k == 0 then None
    else
      var t := Lower(open[k - 1].tag);
      if t in rule.closes then Some(k - 1)
      else if t in rule.scope then None
      else FindClosable(open, rule, k - 1)
  }

  /** The innermost open element with the given (lower-case) name, below `k`. */
  function FindOpen(open: seq<Frame>, name: string, k: nat): (r: Option<nat>)
    requires k <= |open|
    ensures r.Some? ==> r.value < k && Lower(open[r.value].tag) == name
    ensures r.Some? ==> forall j :: r.value < j < k ==> Lower(open[j].tag) != name
    ensures r.None? ==> forall j :: 0 <= j < k ==> Lower(open[j].tag) != name
  {
    if k == 0 then None
    else if Lower(open[k - 1].tag) == name then Some(k - 1)
    else FindOpen(open, name, k - 1)
  }

  /** How many open elements opening `name` closes first (HTML only). */
  function AutoCloseCount(st: State, name: string): (r: nat)
    ensures r <= |st.open|
  {
    match AutoCloseRule(Lower(name))
    case None => 0
    case Some(rule) =>
      match FindClosable(st.open, rule, |st.open|)
      case Some(k) => |st.open| - k
      case None => 0
  }

  /** How many open elements an end tag closes in HTML: up to and including
      the innermost one of that name; none when no such element is open. */
  function EndTagCount(st: State, name: string): (r: nat)
    ensures r <= |st.open|
  {
    match FindOpen(st.open, Lower(name), |st.open|)
    case Some(k) => |st.open| - k
    case None => 0
  }

  // ----- the effect of each callback -----

  function StartTagStep(f: Flavor, st: State, name: string, attrs: seq<Attribute>): State {
    if f == XmlFlavor then Push(st, name, attrs)
    else
      var pushed := Push(PopN(st, AutoCloseCount(st, name)), name, attrs);
      if Lower(name) in VoidTags then Pop(pushed) else pushed
  }

  function EndTagStep(f: Flavor, st: State, name: string): Result<State> {
    if f == XmlFlavor then
      if st.open == [] || st.open[|st.open| - 1].tag != name then Err(MismatchedClosingTag(name))
      else Ok(Pop(st))
    else Ok(PopN(st, EndTagCount(st, name)))
  }

  /** At the end of input: strict documents must have nothing open; HTML
      documents close whatever is still open. */
  function CloseAll(f: Flavor, st: State): Result<State> {
    if f == XmlFlavor then
      if st.open != [] then Err(UnclosedTag(st.open[|st.open| - 1].tag)) else Ok(st)
    else Ok(PopN(st, |st.open|))
  }

  /** The root: the first element among the document's top-level nodes. */
  function FirstElement(top: seq<Node>): (r: Option<Node>)
    ensures r.Some? ==> r.value.Element? && r.value in top
    ensures r.None? <==> forall k :: 0 <= k < |top| ==> !top[k].Element?
    ensures r.Some? ==> exists i :: (0 <= i < |top| && top[i] == r.value &&
                                     forall j :: 0 <= j < i ==> !top[j].Element?)
  {
    if top == [] then None
    else if top[0].Element? then Some(top[0])
    else
      var r := FirstElement(top[1..]);
      assert forall k :: 1 <= k < |top| ==> top[k] == top[1..][k - 1];
      r
  }

  function CheckRoot(f: Flavor, top: seq<Node>): Result<seq<Node>> {
    match FirstElement(top)
    case None => Err(NoRootElement)
    case Some(e) =>
      if f == HtmlFlavor && Lower(e.tag) != "html" then Err(RootNotHtml(e.tag)) else Ok(top)
  }

  function Step(f: Flavor, st: State, e: Event): Result<State> {
    match e
    case StartDocument => Ok(Empty)
    case StartTag(n, _, _, a) => Ok(StartTagStep(f, st, n, a))
    case EndTag(n) => EndTagStep(f, st, n)
    case AddText(x) => Ok(AppendText(st, x))
    case AddCData(x) => Ok(Append(st, CData(x)))
    case AddComment(x) => Ok(Append(st, Comment(x)))
    case AddInstruction(x) => Ok(Append(st, Instruction(x)))
    case AddControl(x) => Ok(Append(st, Control(x)))
    case EndDocument =>
      match CloseAll(f, st)
      case Err(err) => Err(err)
      case Ok(closed) =>
        match CheckRoot(f, closed.top)
        case Err(err) => Err(err)
        case Ok(_) => Ok(closed)
  }

  /** Feeds the callbacks one by one; the first error stops the parse. */
  function Run(f: Flavor, st: State, es: seq<Event>): Result<State>
    decreases |es|
  {
    if es == [] then Ok(st)
    else
      match Step(f, st, es[0])
      case Err(err) => Err(err)
      case Ok(next) => Run(f, next, es[1..])
  }

  /** The strict document reads its text in the strict dialect, the HTML
      document in the lenient one. */
  function DialectOf(f: Flavor): Dialect {
    if f == XmlFlavor then Xml else Html
  }

  /** `new XmlLightDocument(text)` / `new HtmlLightDocument(text)`: the
      top-level nodes of the document parsed from `text`. */
  function Build(f: Flavor, text: string): Result<seq<Node>> {
    match Run(f, Empty, Events(text, DialectOf(f)))
    case Ok(st) => Ok(st.top)
    case Err(err) => Err(err)
  }
}

/** Facts about the builder specification used by the document class and
    by the properties of whole parses. */
module BuildFacts {
  import opened Chars
  import opened Attributes
  import opened Tokenizer
  import opened Tree
  import opened BuildSpec

  lemma {:induction false} PopNStep(st: State, n: nat)
    requires n < |st.open|
    ensures PopN(st, n + 1) == Pop(PopN(st, n))
    decreases n
  {
    if n > 0 {
      PopNStep(Pop(st), n - 1);
    }
  }

  /** Running a concatenation is running the first part, then the second
      from where the first ended. */
  lemma {:induction false} RunConcat(f: Flavor, st: State, a: seq<Event>, b: seq<Event>)
    ensures Run(f, st, a + b) ==
      match Run(f, st, a)
      case Ok(mid) => Run(f, mid, b)
      case Err(err) => Err(err)
    decreases |a|
  {
    if a == [] {
      assert a + b == b;
    } else {
      assert (a + b)[0] == a[0];
      assert (a + b)[1..] == a[1..] + b;
      match Step(f, st, a[0])
      case Err(_) =>
      case Ok(next) => RunConcat(f, next, a[1..], b);
    }
  }

  /** A parse starts with `StartDocument`, so whatever the reader held
      before does not matter. */
  lemma RunEventsFromAnyState(f: Flavor, st: State, s: string, d: Dialect)
    ensures Run(f, st, Events(s, d)) == Run(f, Empty, Events(s, d))
  {
    var es := Events(s, d);
    assert es[0] == StartDocument;
  }

  /** A parse that succeeds leaves nothing open and has a root element;
      an HTML document's root is `html` (in any letter case). */
  lemma SuccessfulRun(f: Flavor, st: State, s: string, d: Dialect)
    requires Run(f, st, Events(s, d)).Ok?
    ensures var r := Run(f, st, Events(s, d)).value;
      r.open == [] && FirstElement(r.top).Some? &&
      (f == HtmlFlavor ==> Lower(FirstElement(r.top).value.tag) == "html")
  {
    var body := [StartDocument] + TokensEvents(Tokens(s, d), d);
    assert Events(s, d) == body + [EndDocument];
    RunConcat(f, st, body, [EndDocument]);
    var mid := Run(f, st, body).value;
    assert [EndDocument][1..] == [];
  }
}

/** The document as the parser's reader: it receives each callback and
    updates its children and its stack of open elements in place. */
module Documents {
  import opened Chars
  import opened Attributes
  import opened AttributeMaps
  import opened Tokenizer
  import opened Tree
  import opened BuildSpec
  import opened BuildFacts
  import opened Construction

  datatype Outcome = Pass | Fail(error: ParseError)

  /** The table that interns the names a navigator reports; one per
      document, shared by every navigator over it. */
  class NameTable {
    constructor () {}
  }

  class LightDocument {
    /** Which document class this is: strict XML or tolerant HTML. */
    const flavor: Flavor
    /** `Children`: the document's top-level nodes. */
    var children: seq<Node>
    /** Elements opened by the parser and not yet closed (last = innermost). */
    var open: seq<Frame>
    const nameTable: NameTable

    function State(): State
      reads this
    {
      BuildSpec.State(children, open)
    }

    /** `Root`: the first top-level element, if any. */
    function Root(): (r: Option<Node>)
      reads this
      ensures r.Some? ==> r.value.Element? && r.value in children
      ensures r.None? <==> forall k :: 0 <= k < |children| ==> !children[k].Element?
      ensures r.Some? ==> exists i :: (0 <= i < |children| && children[i] == r.value &&
                                       forall j :: 0 <= j < i ==> !children[j].Element?)
    {
      FirstElement(children)
    }

    /** An empty document, ready to be a reader or to be built by hand. */
    constructor (flavor: Flavor)
      ensures this.flavor == flavor && children == [] && open == []
    {
      this.flavor := flavor;
      children := [];
      open := [];
      nameTable := new NameTable();
    }

    /** `InnerXml` / `WriteXml` of the document. */
    function InnerXml(): string
      reads this
    {
      DocumentXml(children)
    }

    /** `new XmlLightElement(parent, tag)`: a new empty element, appended to
        the children of the document (`parent == []`) or of an element. */
    method AppendElement(parent: Path, tag: string) returns (p: Path)
      requires IsContainerPath(children, parent)
      modifies this
      ensures children == AppendChild(old(children), parent, Element(tag, [], []))
      ensures open == old(open)
      ensures p == parent + [|ChildrenAt(old(children), parent)|]
      ensures ValidPath(children, p) && NodeAt(children, p) == Element(tag, [], [])
    {
      p := parent + [|ChildrenAt(children, parent)|];
      children := AppendChild(children, parent, Element(tag, [], []));
      assert Tree.Parent(p) == parent;
    }

    /** `element.Attributes.Add(name, value)` on the element at `p`: false
        (the dictionary refuses) and no change when the name is taken. */
    method AddAttribute(p: Path, name: string, value: string) returns (added: bool)
      requires p != [] && IsContainerPath(children, p)
      modifies this
      ensures added <==> name !in Names(NodeAt(old(children), p).attrs)
      ensures added ==> children == WithAttributes(old(children), p,
        NodeAt(old(children), p).attrs + [Attribute(name, Some(value))])
      ensures !added ==> children == old(children)
      ensures open == old(open)
    {
      var e := NodeAt(children, p);
      match Construction.AddAttribute(e.attrs, name, value)
      case None => added := false;
      case Some(attrs) =>
        children := WithAttributes(children, p, attrs);
        added := true;
    }

    method StartDocument()
      modifies this
      ensures children == [] && open == []
    {
      children := [];
      open := [];
    }

    /** Adds a node as the last child of the innermost open element, or of
        the document when nothing is open. */
    method AppendNode(n: Node)
      modifies this
      ensures State() == Append(old(State()), n)
    {
      if open == [] {
        children := children + [n];
      } else {
        var f := open[|open| - 1];
        open := open[..|open| - 1] + [Frame(f.tag, f.attrs, f.children + [n])];
      }
    }

    method CloseOne()
      requires open != []
      modifies this
      ensures State() == Pop(old(State()))
    {
      var f := open[|open| - 1];
      open := open[..|open| - 1];
      AppendNode(Element(f.tag, f.attrs, f.children));
    }

    /** Closes the `n` innermost open elements, innermost first. */
    method CloseInnermost(n: nat)
      requires n <= |open|
      modifies this
      ensures State() == PopN(old(State()), n)
    {
      var i := 0;
      while i < n
        invariant 0 <= i <= n
        invariant |old(open)| - i == |open|
        invariant State() == PopN(old(State()), i)
      {
        PopNStep(old(State()), i);
        CloseOne();
        i := i + 1;
      }
    }

    method StartTag(name: string, selfClosed: bool, raw: string, attributes: seq<Attribute>)
      modifies this
      ensures State() == StartTagStep(flavor, old(State()), name, attributes)
    {
      if flavor == HtmlFlavor {
        CloseInnermost(AutoCloseCount(State(), name));
      }
      open := open + [Frame(name, Dedup(attributes), [])];
      if flavor == HtmlFlavor && Lower(name) in VoidTags {
        CloseOne();
      }
    }

    method EndTag(name: string) returns (r: Outcome)
      modifies this
      ensures EndTagStep(flavor, old(State()), name).Ok? ==>
        r == Pass && State() == EndTagStep(flavor, old(State()), name).value
      ensures EndTagStep(flavor, old(State()), name).Err? ==>
        r == Fail(EndTagStep(flavor, old(State()), name).error) && State() == old(State())
    {
      if flavor == XmlFlavor {
        if open == [] || open[|open| - 1].tag != name {
          return Fail(MismatchedClosingTag(name));
        }
        CloseOne();
      } else {
        CloseInnermost(EndTagCount(State(), name));
      }
      r := Pass;
    }

    method AddText(x: string)
      modifies this
      ensures State() == AppendText(old(State()), x)
    {
      if x != [] {
        var ch := Container(State());
        if ch != [] && ch[|ch| - 1].Text? {
          var merged := ch[..|ch| - 1] + [Text(ch[|ch| - 1].text + x)];
          if open == [] {
            children := merged;
          } else {
            var f := open[|open| - 1];
            open := open[..|open| - 1] + [Frame(f.tag, f.attrs, merged)];
          }
        } else {
          AppendNode(Text(x));
        }
      }
    }

    method AddCData(x: string)
      modifies this
      ensures State() == Append(old(State()), CData(x))
    {
      AppendNode(CData(x));
    }

    method AddComment(x: string)
      modifies this
      ensures State() == Append(old(State()), Comment(x))
    {
      AppendNode(Comment(x));
    }

    method AddInstruction(x: string)
      modifies this
      ensures State() == Append(old(State()), Instruction(x))
    {
      AppendNode(Instruction(x));
    }

    method AddControl(x: string)
      modifies this
      ensures State() == Append(old(State()), Control(x))
    {
      AppendNode(Control(x));
    }

    /** Ends the parse: closes or rejects what is still open, then checks
        the root. */
    method EndDocument() returns (r: Outcome)
      modifies this
      ensures Step(flavor, old(State()), Event.EndDocument).Ok? ==>
        r == Pass && State() == Step(flavor, old(State()), Event.EndDocument).value
      ensures Step(flavor, old(State()), Event.EndDocument).Err? ==>
        r == Fail(Step(flavor, old(State()), Event.EndDocument).error)
    {
      if flavor == XmlFlavor {
        if open != [] {
          return Fail(UnclosedTag(open[|open| - 1].tag));
        }
      } else {
        CloseInnermost(|open|);
      }
      match FirstElement(children)
      case None => r := Fail(NoRootElement);
      case Some(e) =>
        if flavor == HtmlFlavor && Lower(e.tag) != "html" {
          r := Fail(RootNotHtml(e.tag));
        } else {
          r := Pass;
        }
    }

    /** Delivers one callback. */
    method Handle(e: Event) returns (r: Outcome)
      modifies this
      ensures Step(flavor, old(State()), e).Ok? ==>
        r == Pass && State() == Step(flavor, old(State()), e).value
      ensures Step(flavor, old(State()), e).Err? ==>
        r == Fail(Step(flavor, old(State()), e).error)
    {
      r := Pass;
      match e
      case StartDocument => StartDocument();
      case EndDocument => r := EndDocument();
      case StartTag(n, sc, raw, a) => StartTag(n, sc, raw, a);
      case EndTag(n) => r := EndTag(n);
      case AddText(x) => AddText(x);
      case AddCData(x) => AddCData(x);
      case AddComment(x) => AddComment(x);
      case AddInstruction(x) => AddInstruction(x);
      case AddControl(x) => AddControl(x);
    }
  }

  /** `XmlLightParser.Parse(text, format, reader)` with this document as
      the reader: the callbacks are delivered in order and the first error
      ends the parse. */
  method Parse(text: string, d: Dialect, doc: LightDocument) returns (r: Outcome)
    modifies doc
    ensures Run(doc.flavor, old(doc.State()), Events(text, d)).Ok? ==>
      r == Pass && doc.State() == Run(doc.flavor, old(doc.State()), Events(text, d)).value
    ensures Run(doc.flavor, old(doc.State()), Events(text, d)).Err? ==>
      r == Fail(Run(doc.flavor, old(doc.State()), Events(text, d)).error)
  {
    var es := Events(text, d);
    var i := 0;
    while i < |es|
      invariant 0 <= i <= |es|
      invariant Run(doc.flavor, old(doc.State()), es) == Run(doc.flavor, doc.State(), es[i..])
    {
      assert es[i..][0] == es[i] && es[i..][1..] == es[i + 1..];
      var o := doc.Handle(es[i]);
      if o.Fail? {
        return o;
      }
      i := i + 1;
    }
    r := Pass;
  }

  /** `new XmlLightDocument(text)` (strict dialect) and
      `new HtmlLightDocument(text)` (lenient dialect). */
  method Load(text: string, flavor: Flavor) returns (doc: LightDocument, r: Outcome)
    ensures fresh(doc) && doc.flavor == flavor
    ensures Build(flavor, text).Ok? ==>
      r == Pass && doc.children == Build(flavor, text).value && doc.open == []
    ensures Build(flavor, text).Err? ==> r == Fail(Build(flavor, text).error)
  {
    doc := new LightDocument(flavor);
    r := Parse(text, DialectOf(flavor), doc);
    if r.Pass? {
      SuccessfulRun(flavor, Empty, text, DialectOf(flavor));
    }
  }
}
