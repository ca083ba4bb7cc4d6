/** The light tree: elements with ordered attributes and owned children,
    and the leaf nodes (text, CDATA, comment, processing instruction,
    control construct), with the queries the tree answers without a cursor. */
module Tree {
  import opened Chars
  import opened Attributes

  datatype Node =
    | Element(tag: string, attrs: seq<Attribute>, children: seq<Node>)
    | Text(text: string)
    | CData(text: string)
    | Comment(text: string)
    | Instruction(text: string)
    | Control(text: string)

  /** A position in a document: the child index taken at each level,
      starting from the document's own children; `[]` is the document. */
  type Path = seq<nat>

  // ----- names -----

  /** Index of the first `:` in a tag name, if any. */
  function ColonIndex(tag: string, i: nat): (r: Option<nat>)
    requires i <= |tag|
    ensures r.Some? ==> i <= r.value < |tag| && tag[r.value] == ':'
    ensures r.Some? ==> forall k :: i <= k < r.value ==> tag[k] != ':'
    ensures r.None? ==> forall k :: i <= k < |tag| ==> tag[k] != ':'
    decreases |tag| - i
  {
    if i == |tag| then None else if tag[i] == ':' then Some(i) else ColonIndex(tag, i + 1)
  }

  /** `XmlLightElement.Namespace`: the prefix before the first `:`, or "". */
  function Namespace(tag: string): (r: string)
    ensures ':' !in r
    ensures ':' !in tag ==> r == ""
  {
    match ColonIndex(tag, 0)
    case Some(k) => tag[..k]
    case None => ""
  }

  /** `XmlLightElement.LocalName`: what follows the first `:`, or the whole name. */
  function LocalName(tag: string): (r: string)
    ensures ':' !in tag ==> r == tag
    ensures ':' in tag ==> Namespace(tag) + ":" + r == tag
  {
    match ColonIndex(tag, 0)
    case Some(k) => assert tag == tag[..k] + [':'] + tag[k + 1..]; tag[k + 1..]
    case None => tag
  }

  // ----- inner text -----

  /** `InnerText`: the text and CDATA content below a node, in document
      order; markup, comments, instructions and control constructs add nothing. */
  function InnerText(n: Node): string
    decreases n, 1
  {
    match n
    case Element(_, _, ch) => NodesText(ch)
    case Text(x) => x
    case CData(x) => x
    case _ => ""
  }

  function NodesText(ns: seq<Node>): string
    decreases ns, 0
  {
    if ns == [] then "" else InnerText(ns[0]) + NodesText(ns[1..])
  }

  // ----- rendering -----

  function Spaces(n: nat): (r: string)
    ensures |r| == n && forall k :: 0 <= k < n ==> r[k] == ' '
  {
    if n == 0 then "" else [' '] + Spaces(n - 1)
  }

  /** An attribute is written with double quotes unless its value holds one;
      a bare name is written with an empty value. */
  function RenderAttribute(a: Attribute): string {
    var v := if a.value.Some? then a.value.value else "";
    var q := if '"' in v then '\'' else '"';
    " " + a.name + "=" + [q] + v + [q]
  }

  function RenderAttributes(attrs: seq<Attribute>): string {
    if attrs == [] then "" else RenderAttribute(attrs[0]) + RenderAttributes(attrs[1..])
  }

  /** A child list is indented only when it holds no text or CDATA (mixed
      content is written as it is, and so is everything below it). */
  predicate IsTextual(n: Node) {
    n.Text? || n.CData?
  }

  predicate NoTextual(ns: seq<Node>) {
    forall k :: 0 <= k < |ns| ==> !IsTextual(ns[k])
  }

  /** The markup of a node at nesting `depth`; `indent` is off inside mixed content. */
  function Render(n: Node, depth: nat, indent: bool): string
    decreases n, 2
  {
    match n
    case Text(x) => x
    case CData(x) => "<![CDATA[" + x + "]]>"
    case Comment(x) => "<!--" + x + "-->"
    case Instruction(x) => "<?" + x + "?>"
    case Control(x) => "<!" + x + ">"
    case Element(t, a, ch) =>
      "<" + t + RenderAttributes(a) + ">" + RenderContent(ch, depth, indent) + "</" + t + ">"
  }

  function RenderContent(ch: seq<Node>, depth: nat, indent: bool): string
    decreases ch, 1
  {
    if indent && ch != [] && NoTextual(ch) then
      RenderIndented(ch, depth + 1) + "\n" + Spaces(2 * depth)
    else RenderFlat(ch, depth + 1)
  }

  function RenderIndented(ns: seq<Node>, depth: nat): string
    decreases ns, 0
  {
    if ns == [] then ""
    else "\n" + Spaces(2 * depth) + Render(ns[0], depth, true) + RenderIndented(ns[1..], depth)
  }

  function RenderFlat(ns: seq<Node>, depth: nat): string
    decreases ns, 0
  {
    if ns == [] then "" else Render(ns[0], depth, false) + RenderFlat(ns[1..], depth)
  }

  /** `InnerXml` of a node. */
  function InnerXml(n: Node): string {
    Render(n, 0, true)
  }

  /** `InnerXml` / `WriteXml` of a document: its top-level nodes in order. */
  function DocumentXml(top: seq<Node>): string {
    if top == [] then "" else Render(top[0], 0, true) + DocumentXml(top[1..])
  }

  // ----- positions and siblings -----

  /** The children of the node at `p` (none for a leaf). */
  function ChildrenAt(top: seq<Node>, p: Path): seq<Node>
    decreases |p|
  {
    if p == [] then top
    else if p[0] < |top| && top[p[0]].Element? then ChildrenAt(top[p[0]].children, p[1..])
    else []
  }

  /** `p` names a node of the document (or, for `[]`, the document). */
  predicate ValidPath(top: seq<Node>, p: Path) {
    p == [] || p[|p| - 1] < |ChildrenAt(top, p[..|p| - 1])|
  }

  function NodeAt(top: seq<Node>, p: Path): Node
    requires ValidPath(top, p) && p != []
  {
    ChildrenAt(top, p[..|p| - 1])[p[|p| - 1]]
  }

  function Parent(p: Path): Path
    requires p != []
  {
    p[..|p| - 1]
  }

  /** Document order: `a` comes before `b` when it is a proper prefix of
      `b` (an element before its descendants) or when, at the first step
      where the two differ, `a` takes the earlier child. */
  predicate Before(a: Path, b: Path)
    decreases |a|
  {
    b != [] && (a == [] || a[0] < b[0] || (a[0] == b[0] && Before(a[1..], b[1..])))
  }

  /** `PrevSibling`: the node before this one in its parent's child list. */
  function PrevSibling(top: seq<Node>, p: Path): (r: Option<Path>)
    ensures r.None? <==> p == [] || p[|p| - 1] == 0
    ensures r.Some? ==> |r.value| == |p| && Parent(r.value) == Parent(p)
    ensures r.Some? ==> r.value[|r.value| - 1] + 1 == p[|p| - 1]
  {
    if p == [] || p[|p| - 1] == 0 then None
    else
      assert (Parent(p) + [p[|p| - 1] - 1])[..|p| - 1] == Parent(p);
      Some(Parent(p) + [p[|p| - 1] - 1])
  }

  /** `NextSibling`: the node after this one in its parent's child list. */
  function NextSibling(top: seq<Node>, p: Path): (r: Option<Path>)
    ensures r.None? <==> p == [] || p[|p| - 1] + 1 >= |ChildrenAt(top, Parent(p))|
    ensures r.Some? ==> |r.value| == |p| && Parent(r.value) == Parent(p)
    ensures r.Some? ==> r.value[|r.value| - 1] == p[|p| - 1] + 1
  {
    if p == [] || p[|p| - 1] + 1 >= |ChildrenAt(top, Parent(p))| then None
    else
      assert (Parent(p) + [p[|p| - 1] + 1])[..|p| - 1] == Parent(p);
      Some(Parent(p) + [p[|p| - 1] + 1])
  }
}

/** Properties of the derived relations of the tree. */
module TreeFacts {
  import opened Chars
  import opened Attributes
  import opened Tree

  /** Siblings are derived from the index in the parent's child list, so
      stepping back and then forward (or forward then back) returns to the
      same node, and a sibling of a node of the document is one too. */
  lemma SiblingSymmetry(top: seq<Node>, p: Path)
    requires ValidPath(top, p)
    ensures PrevSibling(top, p).Some? ==>
      ValidPath(top, PrevSibling(top, p).value) &&
      NextSibling(top, PrevSibling(top, p).value) == Some(p)
    ensures NextSibling(top, p).Some? ==>
      ValidPath(top, NextSibling(top, p).value) &&
      PrevSibling(top, NextSibling(top, p).value) == Some(p)
  {
    if p != [] {
      assert p == Parent(p) + [p[|p| - 1]];
    }
  }

  /** The document itself has no siblings; its first node has no previous
      sibling and its last node no next sibling. */
  lemma DocumentSiblingBoundaries(top: seq<Node>)
    requires top != []
    ensures PrevSibling(top, []).None? && NextSibling(top, []).None?
    ensures ValidPath(top, [0]) && PrevSibling(top, [0]).None?
    ensures ValidPath(top, [|top| - 1]) && NextSibling(top, [|top| - 1]).None?
  {
    assert Parent([|top| - 1]) == [];
  }

  lemma {:induction false} NodesTextConcat(a: seq<Node>, b: seq<Node>)
    ensures NodesText(a + b) == NodesText(a) + NodesText(b)
    decreases |a|
  {
    if a != [] {
      assert (a + b)[0] == a[0];
      assert (a + b)[1..] == a[1..] + b;
      NodesTextConcat(a[1..], b);
    } else {
      assert a + b == b;
    }
  }

  /** Siblings are neighbours: the previous sibling is the child just
      before this one in the parent's child list, the next sibling the
      child just after it. */
  lemma SiblingAdjacent(top: seq<Node>, p: Path)
    requires ValidPath(top, p) && p != []
    ensures PrevSibling(top, p).Some? ==>
      ValidPath(top, PrevSibling(top, p).value) &&
      NodeAt(top, PrevSibling(top, p).value) == ChildrenAt(top, Parent(p))[p[|p| - 1] - 1]
    ensures NextSibling(top, p).Some? ==>
      ValidPath(top, NextSibling(top, p).value) &&
      NodeAt(top, NextSibling(top, p).value) == ChildrenAt(top, Parent(p))[p[|p| - 1] + 1]
  {
    SiblingSymmetry(top, p);
  }

  /** Document order is a strict total order on paths: no path is before
      itself, of two paths at most one is before the other, and of two
      different paths one is. */
  lemma {:induction false} BeforeIsStrictTotal(a: Path, b: Path)
    ensures !Before(a, a)
    ensures Before(a, b) ==> !Before(b, a)
    ensures a != b ==> Before(a, b) || Before(b, a)
    decreases |a|
  {
    if a != [] && b != [] {
      BeforeIsStrictTotal(a[1..], b[1..]);
      if a[0] == b[0] && a[1..] == b[1..] {
        assert a == [a[0]] + a[1..] && b == [b[0]] + b[1..];
      }
    } else if a != [] {
      BeforeIsStrictTotal(a[1..], a[1..]);
    }
  }

  /** An element comes before its descendants. */
  lemma {:induction false} AncestorBefore(a: Path, b: Path)
    requires a < b
    ensures Before(a, b)
    decreases |a|
  {
    if a != [] {
      assert a[1..] < b[1..] by {
        assert a[1..] == b[1..|a|];
      }
      AncestorBefore(a[1..], b[1..]);
    }
  }

  /** Paths read from the front: a path into the document is an index into
      its top-level nodes followed by a path into that node's children. */
  lemma ValidPathCons(top: seq<Node>, i: nat, q: Path)
    ensures ValidPath(top, [i] + q) <==>
      i < |top| && (q == [] || (top[i].Element? && ValidPath(top[i].children, q)))
    ensures ValidPath(top, [i] + q) ==>
      NodeAt(top, [i] + q) == if q == [] then top[i] else NodeAt(top[i].children, q)
  {
    var p := [i] + q;
    if q == [] {
      assert p[..0] == [];
    } else {
      var q' := q[..|q| - 1];
      assert p[..|p| - 1] == [i] + q';
      assert ([i] + q')[0] == i && ([i] + q')[1..] == q';
      assert p[|p| - 1] == q[|q| - 1];
    }
  }
}
