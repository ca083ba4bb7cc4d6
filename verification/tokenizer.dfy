/** The event parser: a single left-to-right pass that cuts the input into
    tokens (text, CDATA, comments, processing instructions, control
    constructs such as DOCTYPE, start tags and end tags) and turns them into
    the callback sequence a reader (the tree builder) receives. */
module Tokenizer {
  import opened Chars
  import opened Attributes

  datatype Token =
    | TextToken(text: string)
    | CDataToken(text: string)
    | CommentToken(text: string)
    | InstructionToken(text: string)
    | ControlToken(text: string)
    | StartToken(name: string, selfClosed: bool, raw: string)
    | EndToken(name: string, raw: string)

  /** The callbacks of a reader, in the order the parser makes them. */
  datatype Event =
    | StartDocument
    | EndDocument
    | StartTag(name: string, selfClosed: bool, raw: string, attributes: seq<Attribute>)
    | EndTag(name: string)
    | AddText(text: string)
    | AddCData(text: string)
    | AddComment(text: string)
    | AddInstruction(text: string)
    | AddControl(text: string)

  /** The exact piece of input a token was cut from. */
  function Source(t: Token): string {
    match t
    case TextToken(x) => x
    case CDataToken(x) => "<![CDATA[" + x + "]]>"
    case CommentToken(x) => "<!--" + x + "-->"
    case InstructionToken(x) => "<?" + x + "?>"
    case ControlToken(x) => "<!" + x + ">"
    case StartToken(_, _, raw) => raw
    case EndToken(_, raw) => raw
  }

  /** Text runs up to the next `<` (or the end of the input). */
  function TextEnd(s: string, i: nat): (r: nat)
    requires i <= |s|
    ensures i <= r <= |s|
    ensures forall k :: i <= k < r ==> s[k] != '<'
    ensures r == |s| || s[r] == '<'
    decreases |s| - i
  {
    if i < |s| && s[i] != '<' then TextEnd(s, i + 1) else i
  }

  /** Strict tag interior: only `name="value"` / `name='value'` pairs, each
      after whitespace, then optional whitespace, optional `/`, and `>`.
      Returns the index of the closing `>`. */
  function XmlTagEnd(s: string, k: nat): (r: Option<nat>)
    requires k <= |s|
    ensures r.Some? ==> k <= r.value < |s| && s[r.value] == '>'
    decreases |s| - k
  {
    var m := SkipSpaces(s, k);
    if m < |s| && s[m] == '>' then Some(m)
    else if m + 1 < |s| && s[m] == '/' && s[m + 1] == '>' then Some(m + 1)
    else if m > k && m < |s| && IsNameChar(s[m]) then
      var (a, n) := ReadAttribute(s, m, Xml);
      if a.Some? then XmlTagEnd(s, n) else None
    else None
  }

  /** Lenient tag interior: anything up to the first `>` that is not inside
      an attribute value; a stray `<` means this was not a tag after all. */
  function HtmlTagEnd(s: string, k: nat): (r: Option<nat>)
    requires k <= |s|
    ensures r.Some? ==> k <= r.value < |s| && s[r.value] == '>'
    decreases |s| - k
  {
    if k >= |s| then None
    else if s[k] == '>' then Some(k)
    else if s[k] == '<' then None
    else if IsSpace(s[k]) && k + 1 < |s| && IsNameChar(s[k + 1]) then
      var (_, n) := ReadAttribute(s, k + 1, Html);
      HtmlTagEnd(s, n)
    else HtmlTagEnd(s, k + 1)
  }

  function TagEnd(s: string, k: nat, d: Dialect): (r: Option<nat>)
    requires k <= |s|
    ensures r.Some? ==> k <= r.value < |s| && s[r.value] == '>'
  {
    if d == Xml then XmlTagEnd(s, k) else HtmlTagEnd(s, k)
  }

  /** The construct `open ... close` at `i`: its content and the index just
      past `close`, when `open` is there and `close` follows somewhere. */
  function Delimited(s: string, i: nat, open: string, close: string): (r: Option<(string, nat)>)
    requires |close| > 0
    ensures r.Some? ==> i + |open| + |close| <= r.value.1 <= |s|
    ensures r.Some? ==> s[i..r.value.1] == open + r.value.0 + close
  {
    if !At(s, i, open) then None
    else
      match Find(s, i + |open|, close)
      case Some(e) =>
        AtIsSlice(s, i, open);
        AtIsSlice(s, e, close);
        assert s[i..e + |close|] == s[i..i + |open|] + s[i + |open|..e] + s[e..e + |close|];
        Some((s[i + |open|..e], e + |close|))
      case None => None
  }

  /** The constructs that open with `<!` or `<?`, checked in this order, so
      `<!--` is never a control construct. */
  function DeclarationMarkup(s: string, i: nat): (r: Option<(Token, nat)>)
    ensures r.Some? ==> i < r.value.1 <= |s|
  {
    if At(s, i, "<!--") then
      match Delimited(s, i, "<!--", "-->")
      case Some((x, n)) => Some((CommentToken(x), n))
      case None => None
    else if At(s, i, "<![CDATA[") then
      match Delimited(s, i, "<![CDATA[", "]]>")
      case Some((x, n)) => Some((CDataToken(x), n))
      case None => None
    else if At(s, i, "<!") then
      match Delimited(s, i, "<!", ">")
      case Some((x, n)) => Some((ControlToken(x), n))
      case None => None
    else if At(s, i, "<?") then
      match Delimited(s, i, "<?", "?>")
      case Some((x, n)) => Some((InstructionToken(x), n))
      case None => None
    else None
  }

  /** `</name>`, with optional whitespace before the `>`. */
  function EndTagMarkup(s: string, i: nat): (r: Option<(Token, nat)>)
    requires i + 2 <= |s|
    ensures r.Some? ==> i < r.value.1 <= |s|
  {
    var j := NameEnd(s, i + 2);
    var k := SkipSpaces(s, j);
    if j > i + 2 && k < |s| && s[k] == '>' then Some((EndToken(s[i + 2..j], s[i..k + 1]), k + 1))
    else None
  }

  /** `<name ...>` or `<name .../>`, the interior read by the dialect. */
  function StartTagMarkup(s: string, i: nat, d: Dialect): (r: Option<(Token, nat)>)
    requires i < |s|
    ensures r.Some? ==> i < r.value.1 <= |s|
  {
    var j := NameEnd(s, i + 1);
    if j == i + 1 then None
    else
      match TagEnd(s, j, d)
      case Some(e) => Some((StartToken(s[i + 1..j], s[e - 1] == '/', s[i..e + 1]), e + 1))
      case None => None
  }

  /** Recognises the markup construct that starts with the `<` at `i`, if
      there is one; returns the token and the index just past it. */
  function Markup(s: string, i: nat, d: Dialect): (r: Option<(Token, nat)>)
    requires i < |s| && s[i] == '<'
    ensures r.Some? ==> i < r.value.1 <= |s|
  {
    if At(s, i, "<!") || At(s, i, "<?") then DeclarationMarkup(s, i)
    else if At(s, i, "</") then EndTagMarkup(s, i)
    else StartTagMarkup(s, i, d)
  }

  /** The token at `i` and the index just past it.  A `<` that starts no
      construct is ordinary text, in both dialects. */
  function Next(s: string, i: nat, d: Dialect): (r: (Token, nat))
    requires i < |s|
    ensures i < r.1 <= |s|
  {
    if s[i] == '<' then
      match Markup(s, i, d)
      case Some(r) => r
      case None => var e := TextEnd(s, i + 1); (TextToken(s[i..e]), e)
    else
      var e := TextEnd(s, i); (TextToken(s[i..e]), e)
  }

  /** The tokens from `i` to the end of the input. */
  function Lex(s: string, i: nat, d: Dialect): (r: seq<Token>)
    requires i <= |s|
    decreases |s| - i, 1
  {
    if i >= |s| then [] else LexFrom(s, i, d)
  }

  /** The token at `i`, then the tokens after it. */
  function LexFrom(s: string, i: nat, d: Dialect): (r: seq<Token>)
    requires i < |s|
    decreases |s| - i, 0
  {
    var (t, n) := Next(s, i, d);
    [t] + Lex(s, n, d)
  }

  function Tokens(s: string, d: Dialect): seq<Token> {
    Lex(s, 0, d)
  }

  /** The callbacks one token produces: a self-closed tag is a start
      immediately followed by the matching end. */
  function TokenEvents(t: Token, d: Dialect): (r: seq<Event>)
    ensures r != [] && forall k :: 0 <= k < |r| ==> !r[k].StartDocument? && !r[k].EndDocument?
  {
    match t
    case TextToken(x) => [AddText(x)]
    case CDataToken(x) => [AddCData(x)]
    case CommentToken(x) => [AddComment(x)]
    case InstructionToken(x) => [AddInstruction(x)]
    case ControlToken(x) => [AddControl(x)]
    case StartToken(n, sc, raw) =>
      [StartTag(n, sc, raw, ParseAttributes(raw, d))] + (if sc then [EndTag(n)] else [])
    case EndToken(n, _) => [EndTag(n)]
  }

  function TokensEvents(ts: seq<Token>, d: Dialect): (r: seq<Event>)
    ensures |r| >= |ts|
    ensures forall k :: 0 <= k < |r| ==> !r[k].StartDocument? && !r[k].EndDocument?
  {
    if ts == [] then [] else TokenEvents(ts[0], d) + TokensEvents(ts[1..], d)
  }

  /** `XmlLightParser.Parse`: the whole callback sequence for one input. */
  function Events(s: string, d: Dialect): (r: seq<Event>)
    ensures |r| >= 2 && r[0] == StartDocument && r[|r| - 1] == EndDocument
    ensures forall k :: 0 < k < |r| - 1 ==> !r[k].StartDocument? && !r[k].EndDocument?
  {
    [StartDocument] + TokensEvents(Tokens(s, d), d) + [EndDocument]
  }

  /** The input a run of tokens was cut from. */
  function Concat(ts: seq<Token>): string {
    if ts == [] then "" else Source(ts[0]) + Concat(ts[1..])
  }

  /** A recognised construct is exactly the slice of input it covers. */
  lemma MarkupIsSlice(s: string, i: nat, d: Dialect)
    requires i < |s| && s[i] == '<' && Markup(s, i, d).Some?
    ensures s[i..Markup(s, i, d).value.1] == Source(Markup(s, i, d).value.0)
  {
  }

  /** Every token is exactly the slice of input it was cut from. */
  lemma NextIsSlice(s: string, i: nat, d: Dialect)
    requires i < |s|
    ensures s[i..Next(s, i, d).1] == Source(Next(s, i, d).0)
  {
    if s[i] == '<' && Markup(s, i, d).Some? {
      MarkupIsSlice(s, i, d);
    }
  }

  /** The tokenizer is lossless: concatenating the source of every token
      gives back the input, so nothing is skipped and nothing overlaps. */
  lemma {:induction false} LexIsLossless(s: string, i: nat, d: Dialect)
    requires i <= |s|
    ensures Concat(Lex(s, i, d)) == s[i..]
    decreases |s| - i
  {
    if i < |s| {
      var n := Next(s, i, d).1;
      NextIsSlice(s, i, d);
      LexIsLossless(s, n, d);
      assert Lex(s, i, d) == [Next(s, i, d).0] + Lex(s, n, d);
      assert s[i..] == s[i..n] + s[n..];
    }
  }

  /** The visible text of a token: text and CDATA content, nothing else. */
  function TokenText(t: Token): string {
    match t
    case TextToken(x) => x
    case CDataToken(x) => x
    case _ => ""
  }

  function TokensText(ts: seq<Token>): (r: string)
    ensures |r| <= |Concat(ts)|
  {
    if ts == [] then "" else TokenText(ts[0]) + TokensText(ts[1..])
  }

  /** `XmlLightParser.ParseText`: the human-visible text of a document,
      without building a tree. */
  function ParseText(s: string): (r: string)
    ensures |r| <= |s|
  {
    LexIsLossless(s, 0, Html);
    TokensText(Tokens(s, Html))
  }
}

/** Properties of the single pass. */
module TokenizerFacts {
  import opened Chars
  import opened Attributes
  import opened Tokenizer

  lemma TokensAreLossless(s: string, d: Dialect)
    ensures Concat(Tokens(s, d)) == s
  {
    LexIsLossless(s, 0, d);
  }
}
