/** What rendering writes, taken apart: the markup without indentation,
    and the tree that indentation amounts to (the same tree with the
    newline-and-spaces text nodes a reader of the output will see). */
module Writing {
  import opened Chars
  import opened Attributes
  import opened AttributeMaps
  import opened Tree

  // ----- trees whose markup reads back -----

  /** `close` occurs in `x + close` only at the end: the content cannot end
      its own construct early. */
  predicate ClosesOnlyAtEnd(x: string, close: string) {
    forall k :: 0 <= k < |x| ==> !At(x + close, k, close)
  }

  function ValueText(a: Attribute): string {
    if a.value.Some? then a.value.value else ""
  }

  /** Attributes that can be written and read back: names, no repeated name,
      and no value holding both kinds of quote. */
  predicate WritableAttributes(attrs: seq<Attribute>) {
    UniqueNames(attrs) &&
    forall k :: 0 <= k < |attrs| ==>
      IsName(attrs[k].name) && !('"' in ValueText(attrs[k]) && '\'' in ValueText(attrs[k]))
  }

  predicate Writable(n: Node)
    decreases n, 1
  {
    match n
    case Element(t, a, ch) => IsName(t) && WritableAttributes(a) && WritableSeq(ch)
    case Text(x) => x != [] && '<' !in x
    case CData(x) => ClosesOnlyAtEnd(x, "]]>")
    case Comment(x) => ClosesOnlyAtEnd(x, "-->")
    case Instruction(x) => ClosesOnlyAtEnd(x, "?>")
    case Control(x) => '>' !in x && (x == [] || (x[0] != '-' && x[0] != '['))
  }

  /** Every node writable, and no two text nodes side by side (they would
      read back as one). */
  predicate WritableSeq(ns: seq<Node>)
    decreases ns, 0
  {
    (forall k :: 0 <= k < |ns| ==> Writable(ns[k])) &&
    (forall k :: 0 <= k < |ns| - 1 ==> !(ns[k].Text? && ns[k + 1].Text?))
  }

  /** Every attribute carries a value (a reader of the markup sees `a=""`
      where a bare name was). */
  predicate Valued(n: Node)
    decreases n, 1
  {
    match n
    case Element(_, a, ch) => (forall k :: 0 <= k < |a| ==> a[k].value.Some?) && ValuedSeq(ch)
    case _ => true
  }

  predicate ValuedSeq(ns: seq<Node>)
    decreases ns, 0
  {
    forall k :: 0 <= k < |ns| ==> Valued(ns[k])
  }

  // ----- markup without indentation -----

  function StartMarkup(t: string, a: seq<Attribute>): string {
    "<" + t + RenderAttributes(a) + ">"
  }

  function EndMarkup(t: string): string {
    "</" + t + ">"
  }

  function Flat(n: Node): string
    decreases n, 1
  {
    match n
    case Element(t, a, ch) => StartMarkup(t, a) + FlatSeq(ch) + EndMarkup(t)
    case _ => Render(n, 0, false)
  }

  function FlatSeq(ns: seq<Node>): string
    decreases ns, 0
  {
    if ns == [] then "" else Flat(ns[0]) + FlatSeq(ns[1..])
  }

  lemma {:induction false} FlatSeqConcat(a: seq<Node>, b: seq<Node>)
    ensures FlatSeq(a + b) == FlatSeq(a) + FlatSeq(b)
    decreases |a|
  {
    if a == [] {
      assert a + b == b;
    } else {
      assert (a + b)[0] == a[0] && (a + b)[1..] == a[1..] + b;
      FlatSeqConcat(a[1..], b);
    }
  }

  // ----- indentation as text nodes -----

  function Indent(depth: nat): Node {
    Text("\n" + Spaces(2 * depth))
  }

  /** Bare names get the empty value they are written with. */
  function Valuate(a: seq<Attribute>): (r: seq<Attribute>)
    ensures |r| == |a|
    ensures forall k :: 0 <= k < |a| ==> r[k] == Attribute(a[k].name, Some(ValueText(a[k])))
  {
    if a == [] then [] else [Attribute(a[0].name, Some(ValueText(a[0])))] + Valuate(a[1..])
  }

  /** The tree `Render(n, depth, indent)` is the flat markup of. */
  function Indented(n: Node, depth: nat, indent: bool): Node
    decreases n, 2
  {
    match n
    case Element(t, a, ch) => Element(t, Valuate(a), IndentedContent(ch, depth, indent))
    case _ => n
  }

  function IndentedContent(ch: seq<Node>, depth: nat, indent: bool): seq<Node>
    decreases ch, 1
  {
    if indent && ch != [] && NoTextual(ch) then IndentedLines(ch, depth + 1) + [Indent(depth)]
    else IndentedFlat(ch, depth + 1)
  }

  function IndentedLines(ns: seq<Node>, depth: nat): (r: seq<Node>)
    ensures |r| == 2 * |ns|
    decreases ns, 0
  {
    if ns == [] then [] else [Indent(depth), Indented(ns[0], depth, true)] + IndentedLines(ns[1..], depth)
  }

  /** Line breaks and the indented children alternate. */
  lemma {:induction false} IndentedLinesAt(ns: seq<Node>, depth: nat, k: nat)
    requires k < |ns|
    ensures IndentedLines(ns, depth)[2 * k] == Indent(depth)
    ensures IndentedLines(ns, depth)[2 * k + 1] == Indented(ns[k], depth, true)
  {
    if k > 0 {
      IndentedLinesAt(ns[1..], depth, k - 1);
    }
  }

  function IndentedFlat(ns: seq<Node>, depth: nat): (r: seq<Node>)
    ensures |r| == |ns|
    ensures forall k :: 0 <= k < |ns| ==> r[k] == Indented(ns[k], depth, false)
    decreases ns, 0
  {
    if ns == [] then [] else [Indented(ns[0], depth, false)] + IndentedFlat(ns[1..], depth)
  }

  // ----- rendering is the flat markup of the indented tree -----

  lemma {:induction false} RenderAttributesValuate(a: seq<Attribute>)
    ensures RenderAttributes(Valuate(a)) == RenderAttributes(a)
  {
    if a != [] {
      assert Valuate(a)[1..] == Valuate(a[1..]);
      RenderAttributesValuate(a[1..]);
    }
  }

  /** Without indentation, depth plays no part. */
  lemma {:induction false} FlatIsRender(n: Node, depth: nat)
    ensures Render(n, depth, false) == Flat(n)
    decreases n, 1
  {
    if n.Element? {
      FlatSeqIsRenderFlat(n.children, depth + 1);
    }
  }

  lemma {:induction false} FlatSeqIsRenderFlat(ns: seq<Node>, depth: nat)
    ensures RenderFlat(ns, depth) == FlatSeq(ns)
    decreases ns, 0
  {
    if ns != [] {
      FlatIsRender(ns[0], depth);
      FlatSeqIsRenderFlat(ns[1..], depth);
    }
  }

  /** Writing a node with indentation writes the flat markup of its
      indented tree. */
  lemma {:induction false} IndentedIsRender(n: Node, depth: nat, indent: bool)
    ensures Flat(Indented(n, depth, indent)) == Render(n, depth, indent)
    decreases n, 2
  {
    if n.Element? {
      RenderAttributesValuate(n.attrs);
      IndentedContentIsRender(n.children, depth, indent);
    }
  }

  lemma {:induction false} IndentedContentIsRender(ch: seq<Node>, depth: nat, indent: bool)
    ensures FlatSeq(IndentedContent(ch, depth, indent)) == RenderContent(ch, depth, indent)
    decreases ch, 1
  {
    if indent && ch != [] && NoTextual(ch) {
      var lines := IndentedLines(ch, depth + 1);
      FlatSeqConcat(lines, [Indent(depth)]);
      IndentedLinesIsRender(ch, depth + 1);
      assert FlatSeq([Indent(depth)]) == "\n" + Spaces(2 * depth) + FlatSeq([]);
    } else {
      IndentedFlatIsRender(ch, depth + 1);
    }
  }

  lemma {:induction false} IndentedLinesIsRender(ns: seq<Node>, depth: nat)
    ensures FlatSeq(IndentedLines(ns, depth)) == RenderIndented(ns, depth)
    decreases ns, 0
  {
    if ns != [] {
      var head := [Indent(depth), Indented(ns[0], depth, true)];
      FlatSeqConcat(head, IndentedLines(ns[1..], depth));
      assert head[1..][1..] == [];
      IndentedIsRender(ns[0], depth, true);
      IndentedLinesIsRender(ns[1..], depth);
    }
  }

  lemma {:induction false} IndentedFlatIsRender(ns: seq<Node>, depth: nat)
    ensures FlatSeq(IndentedFlat(ns, depth)) == RenderFlat(ns, depth)
    decreases ns, 0
  {
    if ns != [] {
      assert IndentedFlat(ns, depth)[1..] == IndentedFlat(ns[1..], depth);
      IndentedIsRender(ns[0], depth, false);
      IndentedFlatIsRender(ns[1..], depth);
    }
  }

  /** The indented tree writes back to the same markup, whether or not the
      writer indents it: its indented elements already hold their line
      breaks as text, and text turns indentation off. */
  lemma RenderIndentedTree(n: Node, depth: nat, indent: bool, depth': nat, indent': bool)
    requires indent' ==> indent
    ensures Render(Indented(n, depth, indent), depth', indent') == Render(n, depth, indent)
  {
    IndentedIsRender(n, depth, indent);
    var m := Indented(n, depth, indent);
    if !indent' {
      FlatIsRender(m, depth');
    } else if n.Element? {
      var ch := n.children;
      var ic := IndentedContent(ch, depth, indent);
      if ch != [] && NoTextual(ch) {
        IndentedLinesAt(ch, depth + 1, 0);
        assert ic[0] == Indent(depth + 1);
      } else if ch != [] {
        var k :| 0 <= k < |ch| && IsTextual(ch[k]);
        assert IsTextual(ic[k]);
      }
      assert !(ic != [] && NoTextual(ic));
      FlatSeqIsRenderFlat(ic, depth' + 1);
    }
  }

  // ----- the indented tree reads back -----

  lemma IndentWritable(depth: nat)
    ensures Writable(Indent(depth)) && Valued(Indent(depth))
  {
    var x := "\n" + Spaces(2 * depth);
    assert forall k :: 0 <= k < |x| ==> x[k] != '<' by {
      forall k | 0 <= k < |x| ensures x[k] != '<' {
        if k > 0 { assert x[k] == Spaces(2 * depth)[k - 1]; }
      }
    }
  }

  lemma ValuateWritable(a: seq<Attribute>)
    requires WritableAttributes(a)
    ensures WritableAttributes(Valuate(a))
    ensures forall k :: 0 <= k < |Valuate(a)| ==> Valuate(a)[k].value.Some?
  {
  }

  lemma {:induction false} IndentedWritable(n: Node, depth: nat, indent: bool)
    requires Writable(n)
    ensures Writable(Indented(n, depth, indent)) && Valued(Indented(n, depth, indent))
    decreases n, 2
  {
    if n.Element? {
      ValuateWritable(n.attrs);
      IndentedContentWritable(n.children, depth, indent);
    }
  }

  lemma {:induction false} IndentedContentWritable(ch: seq<Node>, depth: nat, indent: bool)
    requires WritableSeq(ch)
    ensures WritableSeq(IndentedContent(ch, depth, indent)) && ValuedSeq(IndentedContent(ch, depth, indent))
    decreases ch, 1
  {
    var r := IndentedContent(ch, depth, indent);
    if indent && ch != [] && NoTextual(ch) {
      var lines := IndentedLines(ch, depth + 1);
      assert r == lines + [Indent(depth)];
      IndentWritable(depth);
      IndentWritable(depth + 1);
      forall j | 0 <= j < |r| ensures Writable(r[j]) && Valued(r[j]) && (j % 2 == 1 ==> !r[j].Text?) {
        if j < |lines| {
          IndentedLinesAt(ch, depth + 1, j / 2);
          if j % 2 == 1 {
            IndentedWritable(ch[j / 2], depth + 1, true);
            assert !IsTextual(ch[j / 2]);
          }
        }
      }
      forall j | 0 <= j < |r| - 1 ensures !(r[j].Text? && r[j + 1].Text?) {
        assert j % 2 == 1 || (j + 1) % 2 == 1;
      }
    } else {
      var flat := IndentedFlat(ch, depth + 1);
      forall j | 0 <= j < |r| ensures Writable(r[j]) && Valued(r[j]) && (r[j].Text? <==> ch[j].Text?) {
        IndentedWritable(ch[j], depth + 1, false);
      }
    }
  }
}
