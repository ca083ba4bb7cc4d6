/** How the strict lexer's output composes along the input. */
module LexSteps {
  import opened Chars
  import opened Attributes
  import opened Tokenizer

  /** Text may end at `e`: the input ends there or markup starts there. */
  predicate TextMayEnd(s: string, e: nat) {
    e == |s| || (e < |s| && s[e] == '<')
  }

  /** The strict lexer's tokens from `i` on. */
  function LexAt(s: string, i: nat): seq<Token>
    requires i <= |s|
  {
    Lex(s, i, Xml)
  }

  /** From `i` the lexer produces `ts` and then goes on as from `j`. */
  predicate LexesAs(s: string, i: nat, ts: seq<Token>, j: nat)
    requires i <= |s| && j <= |s|
  {
    LexAt(s, i) == ts + LexAt(s, j)
  }

  lemma LexStep(s: string, i: nat, tok: Token, n: nat)
    requires i < |s| && Next(s, i, Xml) == (tok, n)
    ensures n <= |s| && LexesAs(s, i, [tok], n)
  {
    assert Lex(s, i, Xml) == [tok] + Lex(s, n, Xml);
  }

  lemma LexesAsConcat(s: string, i: nat, a: seq<Token>, j: nat, b: seq<Token>, k: nat)
    requires i <= |s| && j <= |s| && k <= |s|
    requires LexesAs(s, i, a, j) && LexesAs(s, j, b, k)
    ensures LexesAs(s, i, a + b, k)
  {
  }

}

/** Reading written markup back, second step: the strict lexer cuts the
    flat markup of a writable node sequence into exactly its tokens. */
module TokenReading {
  import opened Chars
  import opened Attributes
  import opened Tokenizer
  import opened Tree
  import opened Writing
  import opened MarkupReading
  import opened LexSteps

  /** Every node but text is written starting with `<`. */
  lemma FlatStartsWithLt(n: Node)
    requires !n.Text?
    ensures |Flat(n)| > 0 && Flat(n)[0] == '<'
  {
    if n.Element? {
      ElementStartsWithLt(n);
    } else {
      LeafStartsWithLt(n);
    }
  }

  lemma ElementStartsWithLt(n: Node)
    requires n.Element?
    ensures |Flat(n)| > 0 && Flat(n)[0] == '<'
  {
    var w := StartMarkup(n.tag, n.attrs);
    assert Flat(n) == w + (FlatSeq(n.children) + EndMarkup(n.tag));
    assert w == "<" + (n.tag + RenderAttributes(n.attrs) + ">");
  }

  lemma LeafStartsWithLt(n: Node)
    requires !n.Text? && !n.Element?
    ensures |Flat(n)| > 0 && Flat(n)[0] == '<'
  {
  }

  lemma LexText(s: string, i: nat, n: Node)
    requires n.Text? && Writable(n) && At(s, i, Flat(n)) && TextMayEnd(s, i + |Flat(n)|)
    ensures i + |Flat(n)| <= |s| && LexesAs(s, i, NodeTokens(n), i + |Flat(n)|)
  {
    var x := n.text;
    AtIsSlice(s, i, x);
    NextText(s, i, x);
    LexStep(s, i, TextToken(x), i + |x|);
  }

  lemma LexCData(s: string, i: nat, n: Node)
    requires n.CData? && Writable(n) && At(s, i, Flat(n))
    ensures i + |Flat(n)| <= |s| && LexesAs(s, i, NodeTokens(n), i + |Flat(n)|)
  {
    var x := n.text;
    assert Flat(n) == "<![CDATA[" + x + "]]>";
    NextCData(s, i, x);
    LexStep(s, i, CDataToken(x), i + |x| + 12);
  }

  lemma LexComment(s: string, i: nat, n: Node)
    requires n.Comment? && Writable(n) && At(s, i, Flat(n))
    ensures i + |Flat(n)| <= |s| && LexesAs(s, i, NodeTokens(n), i + |Flat(n)|)
  {
    var x := n.text;
    assert Flat(n) == "<!--" + x + "-->";
    NextComment(s, i, x);
    LexStep(s, i, CommentToken(x), i + |x| + 7);
  }

  lemma LexInstruction(s: string, i: nat, n: Node)
    requires n.Instruction? && Writable(n) && At(s, i, Flat(n))
    ensures i + |Flat(n)| <= |s| && LexesAs(s, i, NodeTokens(n), i + |Flat(n)|)
  {
    var x := n.text;
    assert Flat(n) == "<?" + x + "?>";
    NextInstruction(s, i, x);
    LexStep(s, i, InstructionToken(x), i + |x| + 4);
  }

  lemma LexControl(s: string, i: nat, n: Node)
    requires n.Control? && Writable(n) && At(s, i, Flat(n))
    ensures i + |Flat(n)| <= |s| && LexesAs(s, i, NodeTokens(n), i + |Flat(n)|)
  {
    var x := n.text;
    assert Flat(n) == "<!" + x + ">";
    NextControl(s, i, x);
    LexStep(s, i, ControlToken(x), i + |x| + 3);
  }

  /** A text, CDATA, comment, instruction or control node is one token. */
  lemma LexLeaf(s: string, i: nat, n: Node)
    requires !n.Element? && Writable(n) && At(s, i, Flat(n))
    requires n.Text? ==> TextMayEnd(s, i + |Flat(n)|)
    ensures i + |Flat(n)| <= |s| && LexesAs(s, i, NodeTokens(n), i + |Flat(n)|)
  {
    if n.Text? {
      LexText(s, i, n);
    } else if n.CData? {
      LexCData(s, i, n);
    } else if n.Comment? {
      LexComment(s, i, n);
    } else if n.Instruction? {
      LexInstruction(s, i, n);
    } else {
      LexControl(s, i, n);
    }
  }

  /** A start tag recognised at `i`, with its name ending at `j` and its
      `>` at `e`, is one token. */
  lemma LexStartTagAt(s: string, i: nat, j: nat, e: nat)
    requires i + 1 < |s| && s[i] == '<'
    requires !At(s, i, "<!") && !At(s, i, "<?") && !At(s, i, "</")
    requires NameEnd(s, i + 1) == j && j > i + 1
    requires TagEnd(s, j, Xml) == Some(e)
    ensures e + 1 <= |s| && LexesAs(s, i, [StartToken(s[i + 1..j], s[e - 1] == '/', s[i..e + 1])], e + 1)
  {
    var tok := StartToken(s[i + 1..j], s[e - 1] == '/', s[i..e + 1]);
    MarkupStartTag(s, i, j, e);
    NextOfMarkup(s, i, tok, e + 1);
    LexStep(s, i, tok, e + 1);
  }

  lemma LexShapedTag(s: string, i: nat, w: string, t: string, n: nat)
    requires StartTagShape(w, t, n) && At(s, i, w)
    requires TagEnd(s, i + 1 + n, Xml) == Some(i + |w| - 1)
    ensures i + |w| <= |s| && LexesAs(s, i, [StartToken(t, false, w)], i + |w|)
  {
    var e := i + |w| - 1;
    ShapedTagFacts(s, i, w, t, n);
    assert StartToken(s[i + 1..i + 1 + n], s[e - 1] == '/', s[i..e + 1]) == StartToken(t, false, w);
    LexStartTagAt(s, i, i + 1 + n, e);
  }

  /** A written start tag is one start token, not self-closed, whose raw
      text is the tag. */
  lemma LexStartTag(s: string, i: nat, t: string, a: seq<Attribute>)
    requires IsName(t) && AttributesWritable(a) && At(s, i, StartMarkup(t, a))
    ensures i + |StartMarkup(t, a)| <= |s|
    ensures LexesAs(s, i, [StartToken(t, false, StartMarkup(t, a))], i + |StartMarkup(t, a)|)
  {
    var w := StartMarkup(t, a);
    StartMarkupShape(t, a);
    TagEndOfWritten(s, i, w, 1 + |t|, a);
    LexShapedTag(s, i, w, t, |t|);
  }

  lemma LexEndTag(s: string, i: nat, t: string)
    requires IsName(t) && At(s, i, EndMarkup(t))
    ensures i + |EndMarkup(t)| <= |s|
    ensures LexesAs(s, i, [EndToken(t, EndMarkup(t))], i + |EndMarkup(t)|)
  {
    NextEndTag(s, i, t);
    LexStep(s, i, EndToken(t, EndMarkup(t)), i + |t| + 3);
  }

  /** The three parts of a written element, where the element is written. */
  lemma ElementParts(s: string, i: nat, t: string, a: seq<Attribute>, ch: seq<Node>)
    requires At(s, i, Flat(Element(t, a, ch)))
    ensures At(s, i, StartMarkup(t, a))
    ensures At(s, i + |StartMarkup(t, a)|, FlatSeq(ch))
    ensures At(s, i + |StartMarkup(t, a)| + |FlatSeq(ch)|, EndMarkup(t))
    ensures |Flat(Element(t, a, ch))| == |StartMarkup(t, a)| + |FlatSeq(ch)| + |EndMarkup(t)|
  {
    var x, y, z := StartMarkup(t, a), FlatSeq(ch), EndMarkup(t);
    assert Flat(Element(t, a, ch)) == x + (y + z);
    AtConcat(s, i, x, y + z);
    AtConcat(s, i + |x|, y, z);
  }

  lemma SeqParts(s: string, i: nat, ns: seq<Node>)
    requires ns != [] && At(s, i, FlatSeq(ns))
    ensures At(s, i, Flat(ns[0])) && At(s, i + |Flat(ns[0])|, FlatSeq(ns[1..]))
    ensures |FlatSeq(ns)| == |Flat(ns[0])| + |FlatSeq(ns[1..])|
  {
    AtConcat(s, i, Flat(ns[0]), FlatSeq(ns[1..]));
  }

  /** After a text node of a writable sequence comes markup or the end of
      the sequence. */
  lemma TextThenMarkup(s: string, i: nat, ns: seq<Node>)
    requires |ns| >= 2 && WritableSeq(ns) && ns[0].Text? && At(s, i, FlatSeq(ns[1..]))
    ensures TextMayEnd(s, i)
  {
    var rest := ns[1..];
    assert !rest[0].Text?;
    FlatStartsWithLt(rest[0]);
    SeqParts(s, i, rest);
    AtChar(s, i, Flat(rest[0]), 0);
  }

  lemma WritableTail(ns: seq<Node>)
    requires ns != [] && WritableSeq(ns)
    ensures Writable(ns[0]) && WritableSeq(ns[1..])
  {
    assert forall k :: 0 <= k < |ns| - 1 ==> ns[1..][k] == ns[k + 1];
  }

  lemma EndMarkupStart(s: string, i: nat, t: string)
    requires At(s, i, EndMarkup(t))
    ensures TextMayEnd(s, i)
  {
    AtChar(s, i, EndMarkup(t), 0);
  }

  /** The lexer reads the flat markup of a writable node back as the
      node's tokens, and then goes on where the markup ends. */
  lemma {:induction false} LexNode(s: string, i: nat, n: Node)
    requires Writable(n) && At(s, i, Flat(n))
    requires n.Text? ==> TextMayEnd(s, i + |Flat(n)|)
    ensures i + |Flat(n)| <= |s| && LexesAs(s, i, NodeTokens(n), i + |Flat(n)|)
    decreases n, 2
  {
    if n.Element? {
      var t, a, ch := n.tag, n.attrs, n.children;
      var i1 := i + |StartMarkup(t, a)|;
      var i2 := i1 + |FlatSeq(ch)|;
      var i3 := i2 + |EndMarkup(t)|;
      var open, close := [StartToken(t, false, StartMarkup(t, a))], [EndToken(t, EndMarkup(t))];
      ElementParts(s, i, t, a, ch);
      EndMarkupStart(s, i2, t);
      LexStartTag(s, i, t, a);
      LexSeq(s, i1, ch);
      LexEndTag(s, i2, t);
      LexesAsConcat(s, i, open, i1, SeqTokens(ch), i2);
      LexesAsConcat(s, i, open + SeqTokens(ch), i2, close, i3);
    } else {
      LexLeaf(s, i, n);
    }
  }

  /** What the head and the tail of a written sequence each satisfy; the
      tail is written from `j` on. */
  lemma SeqStep(s: string, i: nat, ns: seq<Node>) returns (j: nat)
    requires ns != [] && WritableSeq(ns) && At(s, i, FlatSeq(ns)) && TextMayEnd(s, i + |FlatSeq(ns)|)
    ensures j == i + |Flat(ns[0])| && j + |FlatSeq(ns[1..])| == i + |FlatSeq(ns)|
    ensures Writable(ns[0]) && At(s, i, Flat(ns[0]))
    ensures ns[0].Text? ==> TextMayEnd(s, j)
    ensures WritableSeq(ns[1..]) && At(s, j, FlatSeq(ns[1..]))
  {
    j := i + |Flat(ns[0])|;
    SeqParts(s, i, ns);
    WritableTail(ns);
    if ns[0].Text? && |ns| >= 2 {
      TextThenMarkup(s, j, ns);
    }
  }

  /** Joining the head's tokens and the tail's tokens along the input. */
  lemma LexCons(s: string, i: nat, j: nat, k: nat, ns: seq<Node>)
    requires ns != [] && i <= |s| && j <= |s| && k <= |s|
    requires LexesAs(s, i, NodeTokens(ns[0]), j) && LexesAs(s, j, SeqTokens(ns[1..]), k)
    ensures LexesAs(s, i, SeqTokens(ns), k)
  {
    LexesAsConcat(s, i, NodeTokens(ns[0]), j, SeqTokens(ns[1..]), k);
  }

  /** The lexer reads the flat markup of a writable sequence back as the
      sequence's tokens. */
  lemma {:induction false} LexSeq(s: string, i: nat, ns: seq<Node>)
    requires WritableSeq(ns) && At(s, i, FlatSeq(ns)) && TextMayEnd(s, i + |FlatSeq(ns)|)
    ensures i + |FlatSeq(ns)| <= |s| && LexesAs(s, i, SeqTokens(ns), i + |FlatSeq(ns)|)
    decreases ns, 0
  {
    if ns == [] {
      AtIsSlice(s, i, FlatSeq(ns));
    } else {
      var j := SeqStep(s, i, ns);
      LexNode(s, i, ns[0]);
      LexSeq(s, j, ns[1..]);
      LexCons(s, i, j, j + |FlatSeq(ns[1..])|, ns);
    }
  }
}
