/** Building a tree by hand: `new XmlLightElement(parent, tag)` appends a
    new element to its parent's children, and `Attributes.Add(name, value)`
    adds an attribute that is not there yet. */
module Construction {
  import opened Chars
  import opened Attributes
  import opened AttributeMaps
  import opened Tree
  import opened TreeFacts

  /** `p` names the document itself or one of its elements: something that
      can hold children. */
  predicate IsContainerPath(top: seq<Node>, p: Path) {
    p == [] || (ValidPath(top, p) && NodeAt(top, p).Element?)
  }

  /** Every node of `top` that is not on the way down to `p` (neither an
      ancestor of the node at `p`, nor that node, nor below it) is still at
      the same path in `r`. */
  ghost predicate KeepsOffPath(top: seq<Node>, r: seq<Node>, p: Path) {
    forall q :: ValidPath(top, q) && q != [] && !(q <= p) ==>
      ValidPath(r, q) && NodeAt(r, q) == NodeAt(top, q)
  }

  /** Every element on the way down to `p`, above the node at `p`, is still
      there in `r` with the same tag, attributes and number of children. */
  ghost predicate KeepsAncestors(top: seq<Node>, r: seq<Node>, p: Path) {
    forall q :: q != [] && q < p ==>
      ValidPath(top, q) && NodeAt(top, q).Element? && ValidPath(r, q) && NodeAt(r, q).Element? &&
      NodeAt(r, q).tag == NodeAt(top, q).tag && NodeAt(r, q).attrs == NodeAt(top, q).attrs &&
      |ChildrenAt(r, q)| == |ChildrenAt(top, q)|
  }

  /** `ChildrenAt` read from the front, as `ValidPathCons` reads nodes. */
  lemma ChildrenAtCons(top: seq<Node>, i: nat, q: Path)
    ensures ChildrenAt(top, [i] + q) ==
      if i < |top| && top[i].Element? then ChildrenAt(top[i].children, q) else []
  {
    assert ([i] + q)[0] == i && ([i] + q)[1..] == q;
  }

  /** A path is a prefix of another exactly when their first steps agree
      and the rest is a prefix. */
  lemma PrefixCons(j: nat, q: Path, i: nat, p: Path)
    ensures [j] + q <= [i] + p <==> j == i && q <= p
  {
    if [j] + q <= [i] + p {
      assert ([j] + q)[0] == ([i] + p)[0];
      forall t | 0 <= t < |q| ensures q[t] == p[t] {
        assert ([j] + q)[t + 1] == ([i] + p)[t + 1];
      }
    }
    if j == i && q <= p {
      forall t | 0 <= t < |q| + 1 ensures ([j] + q)[t] == ([i] + p)[t] {
        if t > 0 { assert q[t - 1] == p[t - 1]; }
      }
    }
  }

  /** Appending a top-level node changes no path that was valid. */
  lemma AppendTopFrame(top: seq<Node>, n: Node)
    ensures KeepsOffPath(top, top + [n], [])
  {
    var r := top + [n];
    forall q | ValidPath(top, q) && q != [] ensures ValidPath(r, q) && NodeAt(r, q) == NodeAt(top, q) {
      var j, q' := q[0], q[1..];
      assert q == [j] + q';
      ValidPathCons(top, j, q');
      ValidPathCons(r, j, q');
      assert r[j] == top[j];
    }
  }

  /** The element at top-level index `i` gets the children `ch` and keeps
      its tag and attributes: a path off `[i] + p` reads as before when
      every path off `p` below it does. */
  lemma ReplaceTopFrame(top: seq<Node>, i: nat, ch: seq<Node>, p: Path, q: Path)
    requires i < |top| && top[i].Element?
    requires ValidPath(top, q) && q != [] && !(q <= [i] + p)
    requires KeepsOffPath(top[i].children, ch, p)
    ensures var r := top[..i] + [Element(top[i].tag, top[i].attrs, ch)] + top[i + 1..];
      ValidPath(r, q) && NodeAt(r, q) == NodeAt(top, q)
  {
    var r := top[..i] + [Element(top[i].tag, top[i].attrs, ch)] + top[i + 1..];
    var j, q' := q[0], q[1..];
    assert q == [j] + q';
    ValidPathCons(top, j, q');
    ValidPathCons(r, j, q');
    PrefixCons(j, q', i, p);
    if j == i {
      assert r[i] == Element(top[i].tag, top[i].attrs, ch);
    } else {
      assert r[j] == top[j];
    }
  }

  lemma ReplaceTopKeeps(top: seq<Node>, i: nat, ch: seq<Node>, p: Path)
    requires i < |top| && top[i].Element?
    requires KeepsOffPath(top[i].children, ch, p)
    ensures KeepsOffPath(top, top[..i] + [Element(top[i].tag, top[i].attrs, ch)] + top[i + 1..], [i] + p)
  {
    forall q | ValidPath(top, q) && q != [] && !(q <= [i] + p) {
      ReplaceTopFrame(top, i, ch, p, q);
    }
  }

  /** The same for a proper prefix `q` of `[i] + p`: the element there keeps
      its tag, its attributes and its number of children. */
  lemma ReplaceTopAncestor(top: seq<Node>, i: nat, ch: seq<Node>, p: Path, q: Path)
    requires i < |top| && top[i].Element? && p != [] && |ch| == |top[i].children|
    requires q != [] && q < [i] + p
    requires KeepsAncestors(top[i].children, ch, p)
    ensures var r := top[..i] + [Element(top[i].tag, top[i].attrs, ch)] + top[i + 1..];
      ValidPath(top, q) && NodeAt(top, q).Element? && ValidPath(r, q) && NodeAt(r, q).Element? &&
      NodeAt(r, q).tag == NodeAt(top, q).tag && NodeAt(r, q).attrs == NodeAt(top, q).attrs &&
      |ChildrenAt(r, q)| == |ChildrenAt(top, q)|
  {
    var r := top[..i] + [Element(top[i].tag, top[i].attrs, ch)] + top[i + 1..];
    assert r[i] == Element(top[i].tag, top[i].attrs, ch);
    var j, q' := q[0], q[1..];
    assert q == [j] + q';
    PrefixCons(j, q', i, p);
    assert j == i && q' <= p;
    assert q' != p by { assert |q| < |[i] + p|; }
    ValidPathCons(top, j, q');
    ValidPathCons(r, j, q');
    ChildrenAtCons(top, j, q');
    ChildrenAtCons(r, j, q');
  }

  lemma ReplaceTopAncestors(top: seq<Node>, i: nat, ch: seq<Node>, p: Path)
    requires i < |top| && top[i].Element? && (p != [] ==> |ch| == |top[i].children|)
    requires KeepsAncestors(top[i].children, ch, p)
    ensures KeepsAncestors(top, top[..i] + [Element(top[i].tag, top[i].attrs, ch)] + top[i + 1..], [i] + p)
  {
    if p == [] {
      forall q | q < [i] + p ensures |q| == 0 {
        assert |q| < |[i] + p|;
      }
    } else {
      forall q | q != [] && q < [i] + p {
        ReplaceTopAncestor(top, i, ch, p, q);
      }
    }
  }

  /** Appends `n` as the last child of the container at `p`; every other
      node stays where it was, and the elements on the way down keep their
      tag, their attributes and their number of children. */
  function AppendChild(top: seq<Node>, p: Path, n: Node): (r: seq<Node>)
    requires IsContainerPath(top, p)
    ensures IsContainerPath(r, p)
    ensures ChildrenAt(r, p) == ChildrenAt(top, p) + [n]
    ensures p != [] ==> NodeAt(r, p).tag == NodeAt(top, p).tag && NodeAt(r, p).attrs == NodeAt(top, p).attrs
    ensures |r| == |top| + (if p == [] then 1 else 0)
    ensures forall k :: 0 <= k < |top| && (p == [] || k != p[0]) ==> r[k] == top[k]
    ensures KeepsOffPath(top, r, p)
    ensures KeepsAncestors(top, r, p)
    decreases |p|
  {
    if p == [] then
      AppendTopFrame(top, n);
      top + [n]
    else
      var i, q := p[0], p[1..];
      assert p == [i] + q;
      ValidPathCons(top, i, q);
      var e := top[i];
      var ch := AppendChild(e.children, q, n);
      var r := top[..i] + [Element(e.tag, e.attrs, ch)] + top[i + 1..];
      assert r[i] == Element(e.tag, e.attrs, ch);
      ValidPathCons(r, i, q);
      ReplaceTopKeeps(top, i, ch, q);
      ReplaceTopAncestors(top, i, ch, q);
      r
  }

  /** Replaces the attributes of the element at `p`; every other node stays
      as it was, and the elements on the way down keep their tag, their
      attributes and their number of children. */
  function WithAttributes(top: seq<Node>, p: Path, attrs: seq<Attribute>): (r: seq<Node>)
    requires p != [] && IsContainerPath(top, p)
    ensures ValidPath(r, p)
    ensures NodeAt(r, p) == Element(NodeAt(top, p).tag, attrs, NodeAt(top, p).children)
    ensures |r| == |top|
    ensures forall k :: 0 <= k < |top| && k != p[0] ==> r[k] == top[k]
    ensures KeepsOffPath(top, r, p)
    ensures KeepsAncestors(top, r, p)
    decreases |p|
  {
    var i, q := p[0], p[1..];
    assert p == [i] + q;
    ValidPathCons(top, i, q);
    var e := top[i];
    if q == [] then
      AttributesHere(top, i, attrs);
      top[..i] + [Element(e.tag, attrs, e.children)] + top[i + 1..]
    else
      var ch := WithAttributes(e.children, q, attrs);
      AttributesBelow(top, i, q, attrs, ch);
      ReplaceTopKeeps(top, i, ch, q);
      ReplaceTopAncestors(top, i, ch, q);
      top[..i] + [Element(e.tag, e.attrs, ch)] + top[i + 1..]
  }

  /** `WithAttributes` on a top-level element. */
  lemma AttributesHere(top: seq<Node>, i: nat, attrs: seq<Attribute>)
    requires i < |top| && top[i].Element?
    ensures var r := top[..i] + [Element(top[i].tag, attrs, top[i].children)] + top[i + 1..];
      ValidPath(top, [i]) && ValidPath(r, [i]) &&
      NodeAt(r, [i]) == Element(NodeAt(top, [i]).tag, attrs, NodeAt(top, [i]).children) &&
      |r| == |top| && (forall k :: 0 <= k < |top| && k != i ==> r[k] == top[k]) &&
      KeepsOffPath(top, r, [i]) && KeepsAncestors(top, r, [i])
  {
    var r := top[..i] + [Element(top[i].tag, attrs, top[i].children)] + top[i + 1..];
    assert r[i] == Element(top[i].tag, attrs, top[i].children);
    ValidPathCons(top, i, []);
    ValidPathCons(r, i, []);
    WithAttributesTopFrame(top, i, attrs);
    ReplaceTopAncestors(top, i, top[i].children, []);
  }

  /** `WithAttributes` below a top-level element, given what it did inside
      that element's children `ch`. */
  lemma AttributesBelow(top: seq<Node>, i: nat, q: Path, attrs: seq<Attribute>, ch: seq<Node>)
    requires i < |top| && top[i].Element? && q != []
    requires ValidPath(top[i].children, q) && NodeAt(top[i].children, q).Element? && ValidPath(ch, q)
    requires NodeAt(ch, q) == Element(NodeAt(top[i].children, q).tag, attrs, NodeAt(top[i].children, q).children)
    requires |ch| == |top[i].children|
    ensures var r := top[..i] + [Element(top[i].tag, top[i].attrs, ch)] + top[i + 1..];
      ValidPath(top, [i] + q) && NodeAt(top, [i] + q).Element? && ValidPath(r, [i] + q) &&
      NodeAt(r, [i] + q) == Element(NodeAt(top, [i] + q).tag, attrs, NodeAt(top, [i] + q).children) &&
      |r| == |top| && (forall k :: 0 <= k < |top| && k != i ==> r[k] == top[k])
  {
    var r := top[..i] + [Element(top[i].tag, top[i].attrs, ch)] + top[i + 1..];
    assert r[i] == Element(top[i].tag, top[i].attrs, ch);
    ValidPathCons(top, i, q);
    ValidPathCons(r, i, q);
  }

  /** When the top-level element at `i` only gets new attributes, every path
      other than `[i]` reads as before. */
  lemma WithAttributesTopFrame(top: seq<Node>, i: nat, attrs: seq<Attribute>)
    requires i < |top| && top[i].Element?
    ensures KeepsOffPath(top, top[..i] + [Element(top[i].tag, attrs, top[i].children)] + top[i + 1..], [i])
  {
    var r := top[..i] + [Element(top[i].tag, attrs, top[i].children)] + top[i + 1..];
    forall q | ValidPath(top, q) && q != [] && !(q <= [i]) ensures ValidPath(r, q) && NodeAt(r, q) == NodeAt(top, q) {
      var j, q' := q[0], q[1..];
      assert q == [j] + q';
      ValidPathCons(top, j, q');
      ValidPathCons(r, j, q');
      PrefixCons(j, q', i, []);
      if j == i {
        assert r[i] == Element(top[i].tag, attrs, top[i].children);
      } else {
        assert r[j] == top[j];
      }
    }
  }

  /** `Attributes.Add(name, value)`: refused (the dictionary throws) when
      the name is already present; otherwise the new pair comes last. */
  function AddAttribute(attrs: seq<Attribute>, name: string, value: string): (r: Option<seq<Attribute>>)
    ensures r.None? <==> name in Names(attrs)
    ensures r.Some? ==> Lookup(r.value, name) == Some(Some(value))
    ensures r.Some? ==> Names(r.value) == Names(attrs) + {name}
    ensures r.Some? && UniqueNames(attrs) ==> UniqueNames(r.value)
    ensures r.Some? ==> forall other :: other != name ==> Lookup(r.value, other) == Lookup(attrs, other)
  {
    if name in Names(attrs) then None
    else
      var a := Attribute(name, Some(value));
      NamesOfConcat(attrs, [a]);
      assert Names([a]) == {name} by { assert [a][0].name == name; }
      forall other ensures Lookup(attrs + [a], other) ==
        if other in Names(attrs) then Lookup(attrs, other) else Lookup([a], other)
      {
        LookupOfConcat(attrs, [a], other);
      }
      Some(attrs + [a])
  }
}
