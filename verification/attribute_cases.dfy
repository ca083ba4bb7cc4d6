/** The attribute lexer on the two tags the test suite feeds it: each
    character fact of the tag is stated once, every attribute is read by its
    own lemma, and the scan is chained one attribute at a time from the end
    of the tag back to its start.

    The test inputs are written as concatenations of short literals (`"<?xml versi" +
    "on='1.0'?>"`): the pieces denote the same string, but a single long literal
    makes the verifier unfold the scanners over every character at once. */
module AttributeCases {
  import opened Chars
  import opened Attributes
  import opened MarkupReading

  /** One step of the scan: whitespace, then an attribute read to `n`. */
  lemma ScanRead(s: string, i: nat, d: Dialect, a: Option<Attribute>, n: nat)
    requires i + 1 < |s| && IsSpace(s[i]) && IsNameChar(s[i + 1])
    requires ReadAttribute(s, i + 1, d) == (a, n)
    ensures n <= |s| && Scan(s, i, d) == (if a.Some? then [a.value] else []) + Scan(s, n, d)
  {
  }

  // ----- <tag a="1" b='2' c=3 d e=> in the lenient dialect -----

  /** The characters of `<tag a="1" b='2' c=3 d e=>`. */
  predicate LenientTag(s: string) {
    |s| == 26 && s[0] == '<' && s[1] == 't' && s[2] == 'a' && s[3] == 'g' && s[4] == ' ' &&
    s[5] == 'a' && s[6] == '=' && s[7] == '"' && s[8] == '1' && s[9] == '"' && s[10] == ' ' &&
    s[11] == 'b' && s[12] == '=' && s[13] == '\'' && s[14] == '2' && s[15] == '\'' && s[16] == ' ' &&
    s[17] == 'c' && s[18] == '=' && s[19] == '3' && s[20] == ' ' && s[21] == 'd' && s[22] == ' ' &&
    s[23] == 'e' && s[24] == '=' && s[25] == '>'
  }

  /** `a="1"`: a double-quoted value. */
  lemma ReadDoubleQuoted(s: string)
    requires LenientTag(s)
    ensures ReadAttribute(s, 5, Html) == (Some(Attribute("a", Some("1"))), 10)
  {
    assert s[5..6] == "a" && s[8..9] == "1";
    ReadQuoted(s, 5, "a", '"', "1", Html);
  }

  /** `b='2'`: a single-quoted value. */
  lemma ReadSingleQuoted(s: string)
    requires LenientTag(s)
    ensures ReadAttribute(s, 11, Html) == (Some(Attribute("b", Some("2"))), 16)
  {
    assert s[11..12] == "b" && s[14..15] == "2";
    ReadQuoted(s, 11, "b", '\'', "2", Html);
  }

  /** `c=3`: an unquoted value runs to the next whitespace. */
  lemma ReadUnquoted(s: string)
    requires LenientTag(s)
    ensures ReadAttribute(s, 17, Html) == (Some(Attribute("c", Some("3"))), 20)
  {
    assert NameEnd(s, 18) == 18;
    assert SkipSpaces(s, 18) == 18 && SkipSpaces(s, 19) == 19;
    assert ValueEnd(s, 20) == 20;
    assert s[17..18] == "c" && s[19..20] == "3";
  }

  /** `d`: a bare name has no value at all. */
  lemma ReadBare(s: string)
    requires LenientTag(s)
    ensures ReadAttribute(s, 21, Html) == (Some(Attribute("d", None)), 22)
  {
    assert NameEnd(s, 22) == 22;
    assert SkipSpaces(s, 23) == 23;
    assert s[21..22] == "d";
  }

  /** `e=` right before `>`: the empty value. */
  lemma ReadEmpty(s: string)
    requires LenientTag(s)
    ensures ReadAttribute(s, 23, Html) == (Some(Attribute("e", Some(""))), 25)
  {
    assert NameEnd(s, 24) == 24;
    assert SkipSpaces(s, 24) == 24 && SkipSpaces(s, 25) == 25;
    assert ValueEnd(s, 25) == 25;
    assert s[23..24] == "e" && s[25..25] == [];
  }

  lemma ScanFromE(s: string)
    requires LenientTag(s)
    ensures Scan(s, 22, Html) == [Attribute("e", Some(""))]
  {
    ReadEmpty(s);
    ScanRead(s, 22, Html, Some(Attribute("e", Some(""))), 25);
    ScanAtEnd(s, 25, Html);
  }

  lemma ScanFromD(s: string)
    requires LenientTag(s)
    ensures Scan(s, 20, Html) == [Attribute("d", None), Attribute("e", Some(""))]
  {
    ReadBare(s);
    ScanFromE(s);
    ScanRead(s, 20, Html, Some(Attribute("d", None)), 22);
  }

  lemma ScanFromC(s: string)
    requires LenientTag(s)
    ensures Scan(s, 16, Html) == [Attribute("c", Some("3")), Attribute("d", None), Attribute("e", Some(""))]
  {
    ReadUnquoted(s);
    ScanFromD(s);
    ScanRead(s, 16, Html, Some(Attribute("c", Some("3"))), 20);
  }

  lemma ScanFromB(s: string)
    requires LenientTag(s)
    ensures Scan(s, 10, Html) ==
      [Attribute("b", Some("2")), Attribute("c", Some("3")), Attribute("d", None), Attribute("e", Some(""))]
  {
    ReadSingleQuoted(s);
    ScanFromC(s);
    ScanRead(s, 10, Html, Some(Attribute("b", Some("2"))), 16);
  }

  lemma ScanFromA(s: string)
    requires LenientTag(s)
    ensures Scan(s, 4, Html) ==
      [Attribute("a", Some("1")), Attribute("b", Some("2")), Attribute("c", Some("3")),
       Attribute("d", None), Attribute("e", Some(""))]
  {
    ReadDoubleQuoted(s);
    ScanFromB(s);
    ScanRead(s, 4, Html, Some(Attribute("a", Some("1"))), 10);
  }

  lemma ScanLenientTag(s: string)
    requires LenientTag(s)
    ensures ParseAttributes(s, Html) ==
      [Attribute("a", Some("1")), Attribute("b", Some("2")), Attribute("c", Some("3")),
       Attribute("d", None), Attribute("e", Some(""))]
  {
    ScanFromA(s);
    ScanSkips(s, 0, 4, Html);
  }

  /** `ParseAttributes("<tag a=\"1\" b='2' c=3 d e=>")` yields a=1, b=2,
      c=3, d with no value and e with the empty value, in that order and
      nothing more. */
  lemma LenientTagAttributes()
    ensures ParseAttributes("<tag a=\"1\" b='2' " + "c=3 d e=>", Html) ==
      [Attribute("a", Some("1")), Attribute("b", Some("2")), Attribute("c", Some("3")),
       Attribute("d", None), Attribute("e", Some(""))]
  {
    ScanLenientTag("<tag a=\"1\" b='2' " + "c=3 d e=>");
  }

  // ----- <?xml version='1.0'?> in either dialect -----

  /** The characters of `<?xml version='1.0'?>`. */
  predicate Declaration(s: string) {
    |s| == 21 && s[0] == '<' && s[1] == '?' && s[2] == 'x' && s[3] == 'm' && s[4] == 'l' &&
    s[5] == ' ' && s[6] == 'v' && s[7] == 'e' && s[8] == 'r' && s[9] == 's' && s[10] == 'i' &&
    s[11] == 'o' && s[12] == 'n' && s[13] == '=' && s[14] == '\'' && s[15] == '1' &&
    s[16] == '.' && s[17] == '0' && s[18] == '\'' && s[19] == '?' && s[20] == '>'
  }

  lemma ReadVersion(s: string, d: Dialect)
    requires Declaration(s)
    ensures ReadAttribute(s, 6, d) == (Some(Attribute("version", Some("1.0"))), 19)
  {
    assert s[6..13] == "version" && s[15..18] == "1.0";
    ReadQuoted(s, 6, "version", '\'', "1.0", d);
  }

  lemma ScanFromVersion(s: string, d: Dialect)
    requires Declaration(s)
    ensures Scan(s, 5, d) == [Attribute("version", Some("1.0"))]
  {
    ReadVersion(s, d);
    ScanRead(s, 5, d, Some(Attribute("version", Some("1.0"))), 19);
    ScanSkips(s, 19, 20, d);
    ScanAtEnd(s, 20, d);
  }

  lemma ScanDeclaration(s: string, d: Dialect)
    requires Declaration(s)
    ensures ParseAttributes(s, d) == [Attribute("version", Some("1.0"))]
  {
    ScanFromVersion(s, d);
    ScanSkips(s, 0, 5, d);
  }

  /** The attributes of a processing instruction are read like a tag's:
      `version` with value `1.0`, and nothing else, in either dialect. */
  lemma DeclarationAttributes(d: Dialect)
    ensures ParseAttributes("<?xml versi" + "on='1.0'?>", d) == [Attribute("version", Some("1.0"))]
  {
    ScanDeclaration("<?xml versi" + "on='1.0'?>", d);
  }
}
