/** The attribute lexer: turns the raw text of a tag into its ordered
    (name, optional value) pairs, in one of two dialects. */
module Attributes {
  import opened Chars

  /** Strict XML accepts only quoted values; lenient HTML also accepts
      unquoted values, bare names and `name=` with nothing after it. */
  datatype Dialect = Xml | Html

  /** A value of `None` means "present, no value" (a bare HTML name). */
  datatype Attribute = Attribute(name: string, value: Option<string>)

  /** The first index at or after `i` that is not whitespace. */
  function SkipSpaces(s: string, i: nat): (r: nat)
    requires i <= |s|
    ensures i <= r <= |s|
    ensures forall k {:trigger IsSpace(s[k])} :: i <= k < r ==> IsSpace(s[k])
    ensures r == |s| || !IsSpace(s[r])
    decreases |s| - i
  {
    if i < |s| && IsSpace(s[i]) then SkipSpaces(s, i + 1) else i
  }

  /** The end of the run of name characters starting at `i`. */
  function NameEnd(s: string, i: nat): (r: nat)
    requires i <= |s|
    ensures i <= r <= |s|
    ensures forall k {:trigger IsNameChar(s[k])} :: i <= k < r ==> IsNameChar(s[k])
    ensures r == |s| || !IsNameChar(s[r])
    decreases |s| - i
  {
    if i < |s| && IsNameChar(s[i]) then NameEnd(s, i + 1) else i
  }

  /** The end of an unquoted value: it runs to the next whitespace or `>`. */
  function ValueEnd(s: string, i: nat): (r: nat)
    requires i <= |s|
    ensures i <= r <= |s|
    ensures forall k {:trigger IsSpace(s[k])} :: i <= k < r ==> !IsSpace(s[k]) && s[k] != '>'
    ensures r == |s| || IsSpace(s[r]) || s[r] == '>'
    decreases |s| - i
  {
    if i < |s| && !IsSpace(s[i]) && s[i] != '>' then ValueEnd(s, i + 1) else i
  }

  /** Lenient reading of a value without (matching) quotes: it runs to the
      next whitespace or `>`. */
  function Unquoted(s: string, name: string, m: nat): (r: (Option<Attribute>, nat))
    requires m <= |s|
    ensures m <= r.1 <= |s| && r.0 == Some(Attribute(name, Some(s[m..r.1])))
  {
    var v := ValueEnd(s, m);
    (Some(Attribute(name, Some(s[m..v]))), v)
  }

  /** Reads the attribute whose name starts at `i`; returns what was
      recognised (nothing, in the strict dialect, for a malformed pair) and
      where scanning resumes. */
  function ReadAttribute(s: string, i: nat, d: Dialect): (r: (Option<Attribute>, nat))
    requires i < |s| && IsNameChar(s[i])
    ensures i < r.1 <= |s|
    ensures r.0.Some? ==> IsName(r.0.value.name)
    ensures d == Xml && r.0.Some? ==> r.0.value.value.Some?
  {
    var j := NameEnd(s, i);
    var name := s[i..j];
    var k := SkipSpaces(s, j);
    if k < |s| && s[k] == '=' then
      var m := SkipSpaces(s, k + 1);
      if m < |s| && IsQuote(s[m]) then
        match Find(s, m + 1, [s[m]])
        case Some(e) => (Some(Attribute(name, Some(s[m + 1..e]))), e + 1)
        case None => if d == Html then Unquoted(s, name, m) else (None, j)
      else if d == Html then Unquoted(s, name, m)
      else (None, j)
    else if d == Html then (Some(Attribute(name, None)), j)
    else (None, j)
  }

  /** Scans from `i`: an attribute name must follow whitespace, so the tag
      name itself (after `<`, `</` or `<?`) is never taken for one. */
  function Scan(s: string, i: nat, d: Dialect): (r: seq<Attribute>)
    requires i <= |s|
    ensures forall k :: 0 <= k < |r| ==> IsName(r[k].name)
    ensures d == Xml ==> forall k :: 0 <= k < |r| ==> r[k].value.Some?
    decreases |s| - i
  {
    if i + 1 >= |s| then []
    else if IsSpace(s[i]) && IsNameChar(s[i + 1]) then
      var (a, n) := ReadAttribute(s, i + 1, d);
      (if a.Some? then [a.value] else []) + Scan(s, n, d)
    else Scan(s, i + 1, d)
  }

  /** `XmlLightParser.ParseAttributes`: the attributes of a raw tag, in order. */
  function ParseAttributes(tag: string, d: Dialect): (r: seq<Attribute>)
    ensures forall k :: 0 <= k < |r| ==> IsName(r[k].name)
    ensures d == Xml ==> forall k :: 0 <= k < |r| ==> r[k].value.Some?
  {
    Scan(tag, 0, d)
  }
}

/** Attribute lists as an element holds them: unique names, first wins. */
module AttributeMaps {
  import opened Chars
  import opened Attributes

  function Names(attrs: seq<Attribute>): set<string> {
    set k | 0 <= k < |attrs| :: attrs[k].name
  }

  /** `Attributes[name]`: the value of the first attribute so named;
      `None` when there is none, `Some(None)` for a bare name. */
  function Lookup(attrs: seq<Attribute>, name: string): (r: Option<Option<string>>)
    ensures r.None? <==> name !in Names(attrs)
    ensures r.Some? ==> exists k :: (0 <= k < |attrs| && attrs[k].name == name && r.value == attrs[k].value &&
                                     forall j :: 0 <= j < k ==> attrs[j].name != name)
  {
    if attrs == [] then None
    else if attrs[0].name == name then Some(attrs[0].value)
    else Lookup(attrs[1..], name)
  }

  predicate UniqueNames(attrs: seq<Attribute>) {
    forall i, j :: 0 <= i < j < |attrs| ==> attrs[i].name != attrs[j].name
  }

  /** The attributes of an element: the first occurrence of each name, in
      order of first appearance. */
  function Dedup(attrs: seq<Attribute>): (r: seq<Attribute>)
    ensures UniqueNames(r)
    ensures Names(r) == Names(attrs)
    ensures |r| <= |attrs|
  {
    if attrs == [] then []
    else
      var init := attrs[..|attrs| - 1];
      var last := attrs[|attrs| - 1];
      var d := Dedup(init);
      DedupStep(attrs, init, last, d);
      if last.name in Names(init) then d else d + [last]
  }

  lemma DedupStep(attrs: seq<Attribute>, init: seq<Attribute>, last: Attribute, d: seq<Attribute>)
    requires attrs == init + [last]
    requires UniqueNames(d) && Names(d) == Names(init)
    ensures Names(attrs) == Names(init) + {last.name}
    ensures last.name !in Names(init) ==> UniqueNames(d + [last]) && Names(d + [last]) == Names(attrs)
  {
    NamesOfConcat(init, [last]);
    NamesOfConcat(d, [last]);
    assert [last][0].name == last.name;
    assert Names([last]) == {last.name};
  }

  lemma NamesOfConcat(a: seq<Attribute>, b: seq<Attribute>)
    ensures Names(a + b) == Names(a) + Names(b)
  {
    forall n | n in Names(a + b) ensures n in Names(a) + Names(b) {
      var k :| 0 <= k < |a + b| && (a + b)[k].name == n;
      if k < |a| { assert a[k].name == n; } else { assert b[k - |a|].name == n; }
    }
    forall n | n in Names(a) + Names(b) ensures n in Names(a + b) {
      if n in Names(a) {
        var k :| 0 <= k < |a| && a[k].name == n;
        assert (a + b)[k].name == n;
      } else {
        var k :| 0 <= k < |b| && b[k].name == n;
        assert (a + b)[|a| + k].name == n;
      }
    }
  }

  lemma {:induction false} LookupOfConcat(a: seq<Attribute>, b: seq<Attribute>, name: string)
    ensures Lookup(a + b, name) == if name in Names(a) then Lookup(a, name) else Lookup(b, name)
  {
    if a != [] {
      assert (a + b)[1..] == a[1..] + b;
      LookupOfConcat(a[1..], b, name);
    } else {
      assert a + b == b;
    }
  }

  /** Dropping repeated names changes no lookup: the first value wins. */
  lemma {:induction false} DedupKeepsLookup(attrs: seq<Attribute>, name: string)
    ensures Lookup(Dedup(attrs), name) == Lookup(attrs, name)
    decreases |attrs|
  {
    if attrs != [] {
      var init := attrs[..|attrs| - 1];
      var last := attrs[|attrs| - 1];
      assert attrs == init + [last];
      DedupKeepsLookup(init, name);
      LookupOfConcat(init, [last], name);
      if last.name !in Names(init) {
        LookupOfConcat(Dedup(init), [last], name);
      }
    }
  }

  /** A list whose names are already unique is left as it is. */
  lemma {:induction false} DedupOfUnique(attrs: seq<Attribute>)
    requires UniqueNames(attrs)
    ensures Dedup(attrs) == attrs
    decreases |attrs|
  {
    if attrs != [] {
      var init := attrs[..|attrs| - 1];
      var last := attrs[|attrs| - 1];
      assert attrs == init + [last];
      DedupOfUnique(init);
    }
  }
}
