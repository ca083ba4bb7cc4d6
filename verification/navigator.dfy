/** The navigator: a cursor over a finished tree.  `NavigationSpec` gives
    every move as a function of the cursor position; `Navigation` holds the
    cursor class whose moves return true and relocate it, or return false
    and leave it where it was. */
module NavigationSpec {
  import opened Chars
  import opened Attributes
  import opened AttributeMaps
  import opened Tree
  import opened TreeFacts

  /** A cursor position: a node (the document for `[]`) and, when the cursor
      is on one of that element's attributes, the attribute's index. */
  datatype Position = Position(path: Path, attr: Option<nat>)

  const DocumentPosition := Position([], None)

  predicate ValidPosition(top: seq<Node>, pos: Position) {
    ValidPath(top, pos.path) &&
    (pos.attr.Some? ==>
      pos.path != [] && NodeAt(top, pos.path).Element? &&
      pos.attr.value < |NodeAt(top, pos.path).attrs|)
  }

  /** The children of the node at a position (none on an attribute). */
  function ChildrenOf(top: seq<Node>, pos: Position): seq<Node> {
    if pos.attr.Some? then [] else ChildrenAt(top, pos.path)
  }

  function MoveToParent(top: seq<Node>, pos: Position): (r: Option<Position>)
    requires ValidPosition(top, pos)
    ensures r.None? <==> pos == DocumentPosition
    ensures r.Some? ==> ValidPosition(top, r.value) && r.value.attr.None?
    ensures r.Some? && pos.attr.Some? ==> r.value.path == pos.path
    ensures r.Some? && pos.attr.None? ==> r.value.path == Parent(pos.path)
  {
    if pos.attr.Some? then Some(Position(pos.path, None))
    else if pos.path == [] then None
    else
      var p := pos.path;
      assert ValidPath(top, Parent(p)) by {
        if |p| > 1 {
          var g := p[..|p| - 2];
          assert Parent(p) == g + [p[|p| - 2]] && Parent(Parent(p)) == g;
          assert ValidPath(top, Parent(p)) by {
            ParentChildren(top, g, p[|p| - 2]);
          }
        }
      }
      Some(Position(Parent(p), None))
  }

  /** The last step into a node's children is valid exactly when the parent
      holds that many children; a path into children goes through an element. */
  lemma ParentChildren(top: seq<Node>, g: Path, k: nat)
    requires ChildrenAt(top, g + [k]) != []
    ensures ValidPath(top, g + [k])
    decreases |g|
  {
    if g == [] {
      var single: Path := [k];
      assert single[1..] == [];
    } else {
      assert (g + [k])[0] == g[0] && (g + [k])[1..] == g[1..] + [k];
      ParentChildren(top[g[0]].children, g[1..], k);
      ValidPathCons(top, g[0], g[1..] + [k]);
      assert g + [k] == [g[0]] + (g[1..] + [k]);
    }
  }

  function MoveToFirstChild(top: seq<Node>, pos: Position): (r: Option<Position>)
    requires ValidPosition(top, pos)
    ensures r.None? <==> ChildrenOf(top, pos) == []
    ensures r.Some? ==> ValidPosition(top, r.value) && r.value.path == pos.path + [0]
  {
    if ChildrenOf(top, pos) == [] then None
    else
      var p := pos.path + [0];
      assert p[..|p| - 1] == pos.path;
      Some(Position(p, None))
  }

  function MoveToNext(top: seq<Node>, pos: Position): (r: Option<Position>)
    requires ValidPosition(top, pos)
    ensures r.None? <==> pos.attr.Some? || NextSibling(top, pos.path).None?
    ensures r.Some? ==> ValidPosition(top, r.value)
    ensures r.Some? ==> r.value == Position(NextSibling(top, pos.path).value, None)
    ensures r.Some? ==>
      pos.path != [] &&
      NodeAt(top, r.value.path) == ChildrenAt(top, Parent(pos.path))[pos.path[|pos.path| - 1] + 1]
  {
    if pos.attr.Some? then None
    else
      match NextSibling(top, pos.path)
      case None => None
      case Some(q) => SiblingSymmetry(top, pos.path); SiblingAdjacent(top, pos.path); Some(Position(q, None))
  }

  function MoveToPrevious(top: seq<Node>, pos: Position): (r: Option<Position>)
    requires ValidPosition(top, pos)
    ensures r.None? <==> pos.attr.Some? || PrevSibling(top, pos.path).None?
    ensures r.Some? ==> ValidPosition(top, r.value)
    ensures r.Some? ==> r.value == Position(PrevSibling(top, pos.path).value, None)
    ensures r.Some? ==>
      pos.path != [] && pos.path[|pos.path| - 1] > 0 &&
      NodeAt(top, r.value.path) == ChildrenAt(top, Parent(pos.path))[pos.path[|pos.path| - 1] - 1]
  {
    if pos.attr.Some? then None
    else
      match PrevSibling(top, pos.path)
      case None => None
      case Some(q) => SiblingSymmetry(top, pos.path); SiblingAdjacent(top, pos.path); Some(Position(q, None))
  }

  /** The attributes of the element at a position (none for other nodes). */
  function AttributesOf(top: seq<Node>, pos: Position): seq<Attribute>
    requires ValidPosition(top, pos)
  {
    if pos.path != [] && NodeAt(top, pos.path).Element? then NodeAt(top, pos.path).attrs else []
  }

  function MoveToFirstAttribute(top: seq<Node>, pos: Position): (r: Option<Position>)
    requires ValidPosition(top, pos)
    ensures r.None? <==> pos.attr.Some? || AttributesOf(top, pos) == []
    ensures r.Some? ==> ValidPosition(top, r.value) && r.value.path == pos.path
    ensures r.Some? ==> r.value.attr == Some(0)
  {
    if pos.attr.Some? || AttributesOf(top, pos) == [] then None
    else Some(Position(pos.path, Some(0)))
  }

  function MoveToNextAttribute(top: seq<Node>, pos: Position): (r: Option<Position>)
    requires ValidPosition(top, pos)
    ensures r.None? <==> pos.attr.None? || pos.attr.value + 1 >= |AttributesOf(top, pos)|
    ensures r.Some? ==> ValidPosition(top, r.value) && r.value.path == pos.path
    ensures r.Some? ==> r.value.attr == Some(pos.attr.value + 1)
  {
    if pos.attr.None? || pos.attr.value + 1 >= |AttributesOf(top, pos)| then None
    else Some(Position(pos.path, Some(pos.attr.value + 1)))
  }

  // ----- the id index -----

  /** An element whose `id` attribute has the given value. */
  predicate HasId(n: Node, id: string) {
    n.Element? && Lookup(n.attrs, "id") == Some(Some(id))
  }

  /** A path into the document starts at one of its top-level nodes. */
  lemma PathHead(ns: seq<Node>)
    ensures forall q :: ValidPath(ns, q) && q != [] ==> q[0] < |ns|
  {
    forall q | ValidPath(ns, q) && q != [] ensures q[0] < |ns| {
      assert q == [q[0]] + q[1..];
      ValidPathCons(ns, q[0], q[1..]);
    }
  }

  /** Nothing at or after top-level index `k` comes before `[k]`. */
  lemma FirstAtHead(ns: seq<Node>, k: nat, id: string)
    ensures forall q :: ValidPath(ns, q) && q != [] && q[0] >= k && Before(q, [k]) ==>
      !HasId(NodeAt(ns, q), id)
  {
    forall q | q != [] && q[0] >= k ensures !Before(q, [k]) {
      assert [k][1..] == [];
      assert !Before(q[1..], []);
    }
  }

  /** When the first match below the element at `k` is at `c` and that
      element itself has another id, no earlier node from `k` on matches. */
  lemma FirstInChild(ns: seq<Node>, k: nat, id: string, c: Path)
    requires k < |ns| && ns[k].Element? && !HasId(ns[k], id)
    requires forall q :: ValidPath(ns[k].children, q) && q != [] && q[0] >= 0 && Before(q, c) ==>
      !HasId(NodeAt(ns[k].children, q), id)
    ensures forall q :: ValidPath(ns, q) && q != [] && q[0] >= k && Before(q, [k] + c) ==>
      !HasId(NodeAt(ns, q), id)
  {
    forall q | ValidPath(ns, q) && q != [] && q[0] >= k && Before(q, [k] + c) ensures !HasId(NodeAt(ns, q), id) {
      var q' := q[1..];
      assert q == [q[0]] + q';
      assert ([k] + c)[0] == k && ([k] + c)[1..] == c;
      ValidPathCons(ns, q[0], q');
    }
  }

  /** When neither the node at `k` nor anything below it matches, no path
      starting at `k` does. */
  lemma NoneAtHead(ns: seq<Node>, k: nat, id: string)
    requires k < |ns| && !HasId(ns[k], id)
    requires ns[k].Element? ==> forall q :: ValidPath(ns[k].children, q) && q != [] && q[0] >= 0 ==>
      !HasId(NodeAt(ns[k].children, q), id)
    ensures forall q :: ValidPath(ns, q) && q != [] && q[0] == k ==> !HasId(NodeAt(ns, q), id)
  {
    forall q | ValidPath(ns, q) && q != [] && q[0] == k ensures !HasId(NodeAt(ns, q), id) {
      var q' := q[1..];
      assert q == [k] + q';
      ValidPathCons(ns, k, q');
    }
  }

  /** The first element at or after top-level index `k`, in document order
      (an element before its descendants, descendants before later
      siblings), whose `id` is `id`. */
  function FindIdFrom(ns: seq<Node>, k: nat, id: string): (r: Option<Path>)
    ensures r.Some? ==>
      ValidPath(ns, r.value) && r.value != [] && r.value[0] >= k && HasId(NodeAt(ns, r.value), id)
    ensures r.Some? ==> forall q :: ValidPath(ns, q) && q != [] && q[0] >= k && Before(q, r.value) ==>
      !HasId(NodeAt(ns, q), id)
    ensures r.None? ==> forall q :: ValidPath(ns, q) && q != [] && q[0] >= k ==> !HasId(NodeAt(ns, q), id)
    decreases ns, |ns| - k
  {
    if k >= |ns| then
      PathHead(ns);
      None
    else if HasId(ns[k], id) then
      ValidPathCons(ns, k, []);
      FirstAtHead(ns, k, id);
      Some([k])
    else if ns[k].Element? && FindIdFrom(ns[k].children, 0, id).Some? then
      var c := FindIdFrom(ns[k].children, 0, id).value;
      ValidPathCons(ns, k, c);
      FirstInChild(ns, k, id, c);
      Some([k] + c)
    else
      NoneAtHead(ns, k, id);
      FindIdFrom(ns, k + 1, id)
  }

  function FindId(top: seq<Node>, id: string): Option<Path> {
    FindIdFrom(top, 0, id)
  }

  /** `MoveToId`: the element the id index maps `id` to. */
  function MoveToId(top: seq<Node>, id: string): (r: Option<Position>)
    ensures r.Some? ==>
      ValidPosition(top, r.value) && r.value.attr.None? && r.value.path != [] &&
      HasId(NodeAt(top, r.value.path), id)
    ensures r.None? ==> forall p :: ValidPath(top, p) && p != [] ==> !HasId(NodeAt(top, p), id)
    ensures r.Some? ==> forall q :: ValidPath(top, q) && q != [] && Before(q, r.value.path) ==>
      !HasId(NodeAt(top, q), id)
  {
    match FindId(top, id)
    case Some(p) => Some(Position(p, None))
    case None => None
  }

  // ----- what the cursor reports -----

  /** `Name`: the tag of an element, the name of an attribute, "" otherwise. */
  function NameAt(top: seq<Node>, pos: Position): string
    requires ValidPosition(top, pos)
  {
    if pos.path == [] then ""
    else
      var n := NodeAt(top, pos.path);
      if pos.attr.Some? then n.attrs[pos.attr.value].name
      else if n.Element? then n.tag
      else ""
  }

  /** `Value`: an attribute's value (a bare name reads as ""), or the inner
      text of the node. */
  function ValueAt(top: seq<Node>, pos: Position): string
    requires ValidPosition(top, pos)
  {
    if pos.path == [] then NodesText(top)
    else
      var n := NodeAt(top, pos.path);
      if pos.attr.Some? then
        match n.attrs[pos.attr.value].value
        case Some(v) => v
        case None => ""
      else InnerText(n)
  }
}

/** How the moves fit together. */
module NavigationFacts {
  import opened Chars
  import opened Tree
  import opened TreeFacts
  import opened NavigationSpec

  /** `MoveToNext` then `MoveToPrevious` comes back to the same position,
      and the other way round. */
  lemma NextThenPrevious(top: seq<Node>, pos: Position)
    requires ValidPosition(top, pos)
    ensures MoveToNext(top, pos).Some? ==>
      MoveToPrevious(top, MoveToNext(top, pos).value) == Some(pos)
    ensures MoveToPrevious(top, pos).Some? ==>
      MoveToNext(top, MoveToPrevious(top, pos).value) == Some(pos)
  {
    SiblingSymmetry(top, pos.path);
  }

  /** Going down to any child and back up returns to the same node; so
      does stepping onto any attribute of an element and back. */
  lemma ChildThenParent(top: seq<Node>, pos: Position)
    requires ValidPosition(top, pos)
    ensures forall k :: 0 <= k < |ChildrenOf(top, pos)| ==>
      ValidPosition(top, Position(pos.path + [k], None)) &&
      MoveToParent(top, Position(pos.path + [k], None)) == Some(pos)
    ensures pos.attr.None? ==> forall k :: 0 <= k < |AttributesOf(top, pos)| ==>
      ValidPosition(top, Position(pos.path, Some(k))) &&
      MoveToParent(top, Position(pos.path, Some(k))) == Some(pos)
  {
    forall k | 0 <= k < |ChildrenOf(top, pos)|
      ensures ValidPosition(top, Position(pos.path + [k], None)) &&
        MoveToParent(top, Position(pos.path + [k], None)) == Some(pos)
    {
      var p := pos.path + [k];
      assert Parent(p) == pos.path;
    }
  }

  /** `MoveToNextAttribute` applied `k` times (none if a move fails). */
  function NextAttributeSteps(top: seq<Node>, pos: Position, k: nat): Option<Position>
    requires ValidPosition(top, pos)
    decreases k
  {
    if k == 0 then Some(pos)
    else
      match MoveToNextAttribute(top, pos)
      case None => None
      case Some(q) => NextAttributeSteps(top, q, k - 1)
  }

  /** From attribute `j`, `k` more steps reach attribute `j + k`. */
  lemma {:induction false} AttributeSteps(top: seq<Node>, path: Path, j: nat, k: nat)
    requires ValidPosition(top, Position(path, Some(j)))
    requires j + k < |NodeAt(top, path).attrs|
    ensures NextAttributeSteps(top, Position(path, Some(j)), k) == Some(Position(path, Some(j + k)))
    decreases k
  {
    if k > 0 {
      AttributeSteps(top, path, j + 1, k - 1);
    }
  }

  /** Walking the attributes of an element: the first attribute, then `k`
      next moves, reach attribute `k` for every `k` below the count, and
      the cursor there reports that attribute's name and value. */
  lemma AttributeWalk(top: seq<Node>, pos: Position, k: nat)
    requires ValidPosition(top, pos) && pos.attr.None? && k < |AttributesOf(top, pos)|
    ensures MoveToFirstAttribute(top, pos).Some?
    ensures NextAttributeSteps(top, MoveToFirstAttribute(top, pos).value, k) == Some(Position(pos.path, Some(k)))
    ensures ValidPosition(top, Position(pos.path, Some(k)))
    ensures NameAt(top, Position(pos.path, Some(k))) == AttributesOf(top, pos)[k].name
    ensures ValueAt(top, Position(pos.path, Some(k))) ==
      if AttributesOf(top, pos)[k].value.Some? then AttributesOf(top, pos)[k].value.value else ""
  {
    AttributeSteps(top, pos.path, 0, k);
  }

  /** A leaf has no first child. */
  lemma LeafHasNoChild(top: seq<Node>, pos: Position)
    requires ValidPosition(top, pos) && pos.path != [] && !NodeAt(top, pos.path).Element?
    ensures MoveToFirstChild(top, pos).None?
  {
    var p := pos.path;
    assert p == Parent(p) + [p[|p| - 1]];
    LeafChildren(top, Parent(p), p[|p| - 1]);
  }

  lemma {:induction false} LeafChildren(top: seq<Node>, g: Path, k: nat)
    requires ValidPath(top, g + [k]) && !NodeAt(top, g + [k]).Element?
    ensures ChildrenAt(top, g + [k]) == []
    decreases |g|
  {
    assert (g + [k])[..|g|] == g;
    if g == [] {
      assert ([k] + [])[1..] == [];
    } else {
      assert (g + [k])[0] == g[0] && (g + [k])[1..] == g[1..] + [k];
      assert g + [k] == [g[0]] + (g[1..] + [k]);
      ValidPathCons(top, g[0], g[1..] + [k]);
      LeafChildren(top[g[0]].children, g[1..], k);
    }
  }
}

/** The navigator class. */
module Navigation {
  import opened Chars
  import opened Tree
  import opened BuildSpec
  import opened Documents
  import opened NavigationSpec

  class Navigator {
    /** The document navigated and the tree it held when the navigator was
        made; a navigator never changes either. */
    const doc: LightDocument
    const top: seq<Node>
    /** Shared with the document and with every clone. */
    const nameTable: NameTable
    var pos: Position

    predicate Valid()
      reads this
    {
      ValidPosition(top, pos)
    }

    /** `CreateNavigator()`: a cursor on the document node. */
    constructor (doc: LightDocument)
      ensures this.doc == doc && top == doc.children && nameTable == doc.nameTable
      ensures pos == DocumentPosition && Valid()
    {
      this.doc := doc;
      top := doc.children;
      nameTable := doc.nameTable;
      pos := DocumentPosition;
    }

    /** A second cursor over the same tree, at `pos`. */
    constructor Copy(other: Navigator)
      ensures doc == other.doc && top == other.top && nameTable == other.nameTable
      ensures pos == other.pos
    {
      doc := other.doc;
      top := other.top;
      nameTable := other.nameTable;
      pos := other.pos;
    }

    /** `Clone()`: a new cursor at the same place in the same document,
        sharing its name table. */
    method Clone() returns (c: Navigator)
      requires Valid()
      ensures fresh(c) && c.Valid() && c.IsSamePosition(this)
      ensures c.nameTable == nameTable
    {
      c := new Navigator.Copy(this);
    }

    /** `IsSamePosition`: the same node (and attribute) of the same document. */
    predicate IsSamePosition(other: Navigator)
      reads this, other
    {
      doc == other.doc && top == other.top && pos == other.pos
    }

    function Name(): string
      reads this
      requires Valid()
    {
      NameAt(top, pos)
    }

    function Value(): string
      reads this
      requires Valid()
    {
      ValueAt(top, pos)
    }

    /** Applies a move: true and relocated, or false and left in place. */
    method Go(target: Option<Position>) returns (moved: bool)
      requires target.Some? ==> ValidPosition(top, target.value)
      requires Valid()
      modifies this
      ensures Valid()
      ensures moved == target.Some?
      ensures pos == if moved then target.value else old(pos)
    {
      moved := target.Some?;
      if moved {
        pos := target.value;
      }
    }

    method MoveToParent() returns (moved: bool)
      requires Valid()
      modifies this
      ensures Valid() && moved == NavigationSpec.MoveToParent(top, old(pos)).Some?
      ensures pos == if moved then NavigationSpec.MoveToParent(top, old(pos)).value else old(pos)
    {
      moved := Go(NavigationSpec.MoveToParent(top, pos));
    }

    method MoveToFirstChild() returns (moved: bool)
      requires Valid()
      modifies this
      ensures Valid() && moved == NavigationSpec.MoveToFirstChild(top, old(pos)).Some?
      ensures pos == if moved then NavigationSpec.MoveToFirstChild(top, old(pos)).value else old(pos)
    {
      moved := Go(NavigationSpec.MoveToFirstChild(top, pos));
    }

    method MoveToNext() returns (moved: bool)
      requires Valid()
      modifies this
      ensures Valid() && moved == NavigationSpec.MoveToNext(top, old(pos)).Some?
      ensures pos == if moved then NavigationSpec.MoveToNext(top, old(pos)).value else old(pos)
    {
      moved := Go(NavigationSpec.MoveToNext(top, pos));
    }

    method MoveToPrevious() returns (moved: bool)
      requires Valid()
      modifies this
      ensures Valid() && moved == NavigationSpec.MoveToPrevious(top, old(pos)).Some?
      ensures pos == if moved then NavigationSpec.MoveToPrevious(top, old(pos)).value else old(pos)
    {
      moved := Go(NavigationSpec.MoveToPrevious(top, pos));
    }

    method MoveToFirstAttribute() returns (moved: bool)
      requires Valid()
      modifies this
      ensures Valid() && moved == NavigationSpec.MoveToFirstAttribute(top, old(pos)).Some?
      ensures pos == if moved then NavigationSpec.MoveToFirstAttribute(top, old(pos)).value else old(pos)
    {
      moved := Go(NavigationSpec.MoveToFirstAttribute(top, pos));
    }

    method MoveToNextAttribute() returns (moved: bool)
      requires Valid()
      modifies this
      ensures Valid() && moved == NavigationSpec.MoveToNextAttribute(top, old(pos)).Some?
      ensures pos == if moved then NavigationSpec.MoveToNextAttribute(top, old(pos)).value else old(pos)
    {
      moved := Go(NavigationSpec.MoveToNextAttribute(top, pos));
    }

    /** The tree declares no namespace bindings: both namespace moves fail. */
    method MoveToFirstNamespace() returns (moved: bool)
      ensures !moved
    {
      moved := false;
    }

    method MoveToNextNamespace() returns (moved: bool)
      ensures !moved
    {
      moved := false;
    }

    /** `MoveToId`: to the element the id index maps `id` to, wherever the
        cursor was; on failure the cursor stays put. */
    method MoveToId(id: string) returns (moved: bool)
      requires Valid()
      modifies this
      ensures Valid() && moved == NavigationSpec.MoveToId(top, id).Some?
      ensures pos == if moved then NavigationSpec.MoveToId(top, id).value else old(pos)
    {
      moved := Go(NavigationSpec.MoveToId(top, id));
    }
  }
}
