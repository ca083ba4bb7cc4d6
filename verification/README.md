# Light markup engine (CSharpTest.Net.Html) in Dafny

This project models the light markup engine of CSharpTest.Net: `XmlLightParser`,
`XmlLightDocument` / `HtmlLightDocument`, `XmlLightElement` and the cursor that
`CreateNavigator()` returns. It proves properties of that model. The engine's own
implementation is not part of this model. The behaviour modelled is the one pinned
down by the NUnit fixture `src/Library/Library.Test/TestHtmlParser.cs`. Every rule that
fixture leaves open is a design choice, listed below.

The model has four parts, each built on the one before:

* **Attribute lexer** (`attributes.dfy`, module `Attributes`). `ParseAttributes(tag, dialect)`
  turns a raw tag into an ordered list of `(name, optional value)` pairs.
  * The strict (`Xml`) dialect accepts quoted values only.
  * The lenient (`Html`) dialect also accepts unquoted values, bare names (`None`) and
    `name=` (the empty value).
  * `AttributeMaps` gives the element's view of the list: the first occurrence of each name
    wins, and `Lookup` is `Attributes[name]`.
* **Event parser and tree builder** (`tokenizer.dfy`, `builder.dfy`, `construction.dfy`).
  * One left-to-right pass cuts the input into tokens (`Tokenizer.Lex`).
  * It turns them into the callback sequence of the reader interface `IXmlLightReader`:
    `StartDocument`, `StartTag`, `EndTag`, `AddText`, `AddCData`, `AddComment`,
    `AddInstruction`, `AddControl`, `EndDocument` (`Tokenizer.Events`).
  * `BuildSpec` gives the effect of each callback on the builder state, which is the
    document's top-level nodes plus a stack of open elements.
  * `Documents.LightDocument` is the document class. It performs those callbacks in place on
    its `children` and `open` fields, and it also offers the programmatic construction that
    `new XmlLightElement(parent, tag)` and `Attributes.Add` use.
  * Strict documents reject a text with no element, an element left open and an end tag that
    does not match.
  * HTML documents close elements by a rule table (a new `p` closes the open `p`), ignore
    stray end tags, close whatever is left open at the end, and require the root to be `html`.
* **Tree queries** (`tree.dfy`, `writing.dfy`, `normalize.dfy`).
  * Sibling derivation from child indices; namespace and local name split at `:`.
  * Inner text: text and CDATA content, without markup, comments, instructions or control
    constructs.
  * Rendering (`InnerXml`) with explicit open/close pairs and XmlWriter-style indentation.
  * The fixture's `Normalize` helper, as a method with its loop.
* **Navigator** (`navigator.dfy`). `Navigation.Navigator` is a cursor class.
  * Each `MoveTo*` returns true and moves the cursor, or returns false and leaves it where it
    was.
  * `NavigationSpec` gives every move as a function of the position, and `NavigationFacts`
    relates the moves to one another.

The remaining files prove things about the model:

* `reading_lex.dfy`, `reading_tokens.dfy` and `reading_build.dfy`: the render / strict re-parse
  round trip.
* `text_facts.dfy`: the tree keeps exactly the text the parser sees.
* `attribute_cases.dfy`, `dialect_cases.dfy`, `parse_cases.dfy` and `document_cases.dfy`: each
  concrete input of the fixture, as a checked example.

## Design choices

These rules are not visible in the fixture. They were chosen to be consistent with every
assertion it makes:

* **Unrecognised markup is text.** A `<` that starts no construct the dialect recognises is
  ordinary text in both dialects. The strict dialect does not recognise `<html id=a >`, so
  that markup becomes text, and the root is then the self-closed `body`.
* **Attribute names.** An attribute name must follow whitespace, so the tag name is never
  read as an attribute. In a strict tag a name without a quoted value stops the tag from
  being recognised.
* **Duplicate names.** An element keeps the first occurrence of each attribute name.
* **Adjacent text.** Text next to text is merged into one node.
* **Root.** The root is the first element among the top-level nodes.
  * Other top-level elements are allowed.
  * A document without one fails with `NoRootElement` in both flavours.
  * The HTML root check ignores letter case.
* **HTML auto-close table.** It covers `p`, `li`, `dt`/`dd`, `td`/`th`, `tr`,
  `thead`/`tbody`/`tfoot` and `option`, each with the elements that stop the search.
  * Void elements (`br`, `img`, `link`, …) are closed at once.
  * An HTML end tag closes up to the innermost open element of that name, and is ignored when
    none is open.
* **Rendering.**
  * Text and attribute values are written as they are: no character is escaped on writing and no entity is decoded on reading. The text `a&b` is written `a&b`, where `XmlWriter` would write `a&amp;b`.
  * A bare attribute is written `name=""`.
  * A value holding `"` is written in single quotes. `XmlWriter` would keep double quotes and write `&quot;`.
  * The children of an element go on their own lines (two spaces per level) only when none of them is text or CDATA. A child list that mixes elements and text is written on one line as a whole. `XmlWriter` differs here: it stops indenting only from the first text it writes, so it writes `<a><b/>t</a>` with `<b />` on its own line.
* **Adding a taken attribute name.** `Attributes.Add` on a name the element already has throws `ArgumentException` (the attribute dictionary refuses duplicate keys). Here `Construction.AddAttribute` returns `None` and `Documents.LightDocument.AddAttribute` returns false, and the tree does not change.
* **Attribute name case.** Attribute names are compared case-sensitively in both document classes. HTML tag names, by contrast, are matched ignoring case.
* **Parsing into a document that is not empty.** The StartDocument callback empties the document first, so `Parse` into a used document gives the same tree as into a fresh one (`BuildFacts.RunEventsFromAnyState`). The fixture only parses into fresh documents.
* **Repeated ids.** When several elements share an id, `MoveToId` goes to the first one in document order: an element comes before its descendants, and descendants before later siblings. `Tree.Before` defines this order on paths, and the contracts of `NavigationSpec.FindIdFrom` and `NavigationSpec.MoveToId` state that no node before the target has the id.
* **Navigator snapshot.** A navigator keeps the tree the document held when the navigator was created. Later changes to the document are not visible to it.
* **Errors.** The .NET exceptions (`XmlException` for the strict errors, `ApplicationException`
  for a non-`html` root) are the `BuildSpec.ParseError` constructors `NoRootElement`,
  `UnclosedTag`, `MismatchedClosingTag` and `RootNotHtml`.

## Model

| member | source | states |
|---|---|---|
| Attributes.ParseAttributes | src/Library/Library.Test/TestHtmlParser.cs:83-105 | `XmlLightParser.ParseAttributes`: every attribute has a well-formed name, and strict-dialect attributes all carry a value; the exact lists are fixed by the two examples below and by `MarkupReading.ParseStartMarkup` |
| AttributeCases.LenientTagAttributes | src/Library/Library.Test/TestHtmlParser.cs:83-99 | `<tag a="1" b='2' c=3 d e=>` yields exactly a="1", b="2", c="3", d with no value, e="" in source order; a bare name (`None`) is distinct from `name=` (`Some("")`) |
| AttributeCases.DeclarationAttributes | src/Library/Library.Test/TestHtmlParser.cs:101-105 | `<?xml version='1.0'?>` yields only version="1.0", in either dialect |
| Attributes.ReadAttribute | src/Library/Library.Test/TestHtmlParser.cs:83-105 | reading one attribute always advances, yields a well-formed name, and in the strict dialect only ever a value-carrying attribute |
| Attributes.Scan | src/Library/Library.Test/TestHtmlParser.cs:83-105 | every attribute found has a well-formed name; strict-dialect attributes all carry a value |
| MarkupReading.ParseStartMarkup | src/Library/Library.Test/TestHtmlParser.cs:83-105 | the attributes of any written start tag are read back, in order, by both dialects |
| AttributeMaps.Lookup | src/Library/Library.Test/TestHtmlParser.cs:212-216 | `Attributes[name]` is absent exactly when no attribute has that name; otherwise it is the value of the first attribute with that name |
| AttributeMaps.Dedup | src/Library/Library.Test/TestHtmlParser.cs:211-220 | an element's attribute list has unique names, the same set of names, and is no longer than the list parsed |
| AttributeMaps.DedupKeepsLookup | src/Library/Library.Test/TestHtmlParser.cs:212-216 | dropping repeated names changes no lookup: the first value wins |
| AttributeMaps.DedupOfUnique | src/Library/Library.Test/TestHtmlParser.cs:211-220 | a list whose names are already unique is kept as it is |
| DialectCases.LenientCase | src/Library/Library.Test/TestHtmlParser.cs:206-216 | `<html id=a ><body foo='bar' bar="foo" />` as HTML is the root `html` with the single attribute id=a and one child `body` with foo=bar, bar=foo |
| DialectCases.StrictCase | src/Library/Library.Test/TestHtmlParser.cs:218-224 | the same input as XML is the text `<html id=a >` followed by the self-closed root `body` with exactly its two attributes |
| ParseCases.NoMarkupNoRoot | src/Library/Library.Test/TestHtmlParser.cs:284-288 | any input without `<` fails with NoRootElement, in both flavours |
| ParseCases.NoRootCase | src/Library/Library.Test/TestHtmlParser.cs:284-288 | `no xml root node defined` fails with NoRootElement |
| ParseCases.UnclosedCase | src/Library/Library.Test/TestHtmlParser.cs:290-294 | `<xml tag-not-closed='true'>` fails with UnclosedTag("xml") |
| ParseCases.WrongCloseCase | src/Library/Library.Test/TestHtmlParser.cs:296-300 | `<xml wrong-tag-closed='true'></other>` fails with MismatchedClosingTag("other") |
| ParseCases.NotHtmlCase | src/Library/Library.Test/TestHtmlParser.cs:302-306 | `<not-html></not-html>` as HTML fails with RootNotHtml("not-html") |
| BuildFacts.SuccessfulRun | src/Library/Library.Test/TestHtmlParser.cs:284-306 | a parse that succeeds leaves no element open and has a root element, and an HTML root is `html` |
| BuildFacts.RunConcat | src/Library/Library.Test/TestHtmlParser.cs:271-282 | feeding callbacks `a + b` is feeding `a` and then `b` from where `a` ended; the first error stops the parse |
| BuildFacts.RunEventsFromAnyState | src/Library/Library.Test/TestHtmlParser.cs:208-209 | `Parse` into a document starts afresh: StartDocument discards what the document held |
| BuildSpec.FirstElement | src/Library/Library.Test/TestHtmlParser.cs:210 | the root is the first element among the top-level nodes (every node before it is not an element), and is absent exactly when none of them is an element |
| BuildSpec.FindClosable | src/Library/Library.Test/TestHtmlParser.cs:43 | the element an HTML start tag closes is named by the rule, and every open element inside it is neither closable nor a scope boundary; when nothing is closed, every open element the rule names lies outside a scope boundary |
| BuildSpec.Build | src/Library/Library.Test/TestHtmlParser.cs:66 | no contract of its own: `BuildFacts.SuccessfulRun` proves that a successful build has a root and leaves nothing open, the `ParseCases` lemmas prove the four error cases, and `TreeReading.FlatReadsBack` proves the strict build inverts writing |
| Documents.LightDocument.Root | src/Library/Library.Test/TestHtmlParser.cs:210-224 | `Root` is the first top-level element, absent exactly when there is none |
| BuildSpec.FindOpen | src/Library/Library.Test/TestHtmlParser.cs:43 | the innermost open element with the given name, or none open with that name |
| DocumentCases.ParagraphClosesParagraph | src/Library/Library.Test/TestHtmlParser.cs:43 | opening `p` while `p` is innermost closes that `p` (it becomes the last child of its parent) and opens the new one |
| DocumentCases.ParagraphInScopeNests | src/Library/Library.Test/TestHtmlParser.cs:43 | opening `p` directly inside a scope element (`td`, `body`, …) only pushes it |
| DocumentCases.ParagraphsAreSiblings | src/Library/Library.Test/TestHtmlParser.cs:146-150 | `<p class=1><p class=2>` inside `td` leaves the first `p` closed as a child and the second open beside it: the two are siblings |
| Documents.LightDocument.InnerXml | src/Library/Library.Test/TestHtmlParser.cs:60 | no contract of its own: `DocumentCases.DocToXml` proves the markup of line 60, and `TreeReading.ReparseKeepsInnerXml` the reparse equality of line 75 |
| Documents.LightDocument.constructor | src/Library/Library.Test/TestHtmlParser.cs:58 | a new document of either flavour is empty with nothing open |
| Documents.LightDocument.AppendElement | src/Library/Library.Test/TestHtmlParser.cs:59 | `new XmlLightElement(parent, tag)` appends an empty element as the parent's last child and returns its path |
| Documents.LightDocument.AddAttribute | src/Library/Library.Test/TestHtmlParser.cs:59 | `Attributes.Add` adds the pair when the name is new and changes nothing otherwise |
| Documents.LightDocument.StartDocument | src/Library/Library.Test/TestHtmlParser.cs:280 | the StartDocument callback empties the document |
| Documents.LightDocument.StartTag | src/Library/Library.Test/TestHtmlParser.cs:281 | the StartTag callback performs the flavour's start-tag step on the document |
| Documents.LightDocument.EndTag | src/Library/Library.Test/TestHtmlParser.cs:279 | the EndTag callback performs the end-tag step, or reports its error and leaves the document unchanged |
| Documents.LightDocument.AddText | src/Library/Library.Test/TestHtmlParser.cs:277 | the AddText callback appends text to the innermost open node, merged with text before it |
| Documents.LightDocument.AddCData | src/Library/Library.Test/TestHtmlParser.cs:273 | the AddCData callback appends a CDATA node |
| Documents.LightDocument.AddComment | src/Library/Library.Test/TestHtmlParser.cs:274 | the AddComment callback appends a comment node |
| Documents.LightDocument.AddInstruction | src/Library/Library.Test/TestHtmlParser.cs:276 | the AddInstruction callback appends a processing instruction node |
| Documents.LightDocument.AddControl | src/Library/Library.Test/TestHtmlParser.cs:275 | the AddControl callback appends a control construct node |
| Documents.LightDocument.EndDocument | src/Library/Library.Test/TestHtmlParser.cs:278 | the EndDocument callback closes or rejects what is open and checks the root |
| Documents.LightDocument.Handle | src/Library/Library.Test/TestHtmlParser.cs:271-282 | any callback changes the document exactly as the builder specification says, or reports its error |
| Documents.Parse | src/Library/Library.Test/TestHtmlParser.cs:209 | `XmlLightParser.Parse(text, reader)` leaves the document in the state of the whole callback run, or reports the run's error |
| Documents.Load | src/Library/Library.Test/TestHtmlParser.cs:66 | `new XmlLightDocument(text)` / `new HtmlLightDocument(text)` holds the built tree with nothing open, or fails with the build's error |
| Construction.AppendChild | src/Library/Library.Test/TestHtmlParser.cs:59 | appending under a node adds exactly one last child there; every node off the path to it keeps its path and value (`KeepsOffPath`), and every element above it keeps its tag, attributes and number of children (`KeepsAncestors`) |
| Construction.WithAttributes | src/Library/Library.Test/TestHtmlParser.cs:59 | replaces one element's attributes, keeping its tag and children; every node off the path to it keeps its path and value, and every element above it keeps its tag, attributes and number of children |
| Construction.AddAttribute | src/Library/Library.Test/TestHtmlParser.cs:59 | adding succeeds exactly when the name is new; the new name then looks up the value and every other lookup is unchanged |
| DocumentCases.BuildNested | src/Library/Library.Test/TestHtmlParser.cs:58-59 | the hand-built document is `html` holding `body` with its one attribute, nothing open |
| DocumentCases.HandBuiltText | src/Library/Library.Test/TestHtmlParser.cs:60 | the normalised markup of that tree is the open/close pairs on one line |
| DocumentCases.DocToXml | src/Library/Library.Test/TestHtmlParser.cs:55-61 | building the document and normalising its `InnerXml` gives `<html> <body id="bdy"></body> </html>` |
| DocumentCases.RenderNested | src/Library/Library.Test/TestHtmlParser.cs:60 | a root holding one empty child renders as three lines: open tag, the indented child, close tag |
| TreeReading.FlatReadsBack | src/Library/Library.Test/TestHtmlParser.cs:73 | the strict parse of the unindented markup of a writable tree with a root gives that tree back, node for node |
| TreeReading.DocumentReadsBack | src/Library/Library.Test/TestHtmlParser.cs:71-73 | the strict parse of a written document gives the document with its indentation as text nodes |
| TreeReading.ReparseKeepsInnerXml | src/Library/Library.Test/TestHtmlParser.cs:63-77 | writing a document, parsing the markup strictly and writing again gives the same `InnerXml` |
| TreeReading.DocumentXmlOfIndented | src/Library/Library.Test/TestHtmlParser.cs:75 | writing the re-parsed (indentation-as-text) tree writes the same markup |
| Writing.RenderIndentedTree | src/Library/Library.Test/TestHtmlParser.cs:75 | rendering the indented tree writes what rendering the original writes |
| TokenReading.LexSeq | src/Library/Library.Test/TestHtmlParser.cs:73 | the strict lexer reads the markup of a writable node list back as exactly that list's tokens |
| Tokenizer.Events | src/Library/Library.Test/TestHtmlParser.cs:271-282 | the callback sequence of `XmlLightParser.Parse` starts with StartDocument, ends with EndDocument, and has neither in between |
| Tokenizer.TokensEvents | src/Library/Library.Test/TestHtmlParser.cs:271-282 | every token gives at least one callback, and none is StartDocument or EndDocument |
| Tokenizer.ParseText | src/Library/Library.Test/TestHtmlParser.cs:111 | `XmlLightParser.ParseText` is never longer than its input; `TextFacts.BuildKeepsText` proves it is the text of the HTML document built from the same input |
| Tokenizer.TokensText | src/Library/Library.Test/TestHtmlParser.cs:111 | the visible text of a run of tokens is never longer than the input they were cut from |
| TokenizerFacts.TokensAreLossless | src/Library/Library.Test/TestHtmlParser.cs:109-112 | the tokens of any input, put back together, are the input: nothing skipped, nothing overlapping |
| TextFacts.BuildKeepsText | src/Library/Library.Test/TestHtmlParser.cs:108-113 | a built document's text is its tokens' text; for HTML it equals `ParseText` of the same input |
| TextFacts.StepText | src/Library/Library.Test/TestHtmlParser.cs:271-282 | each callback other than start and end of document adds exactly its own text (text, CDATA) to the builder's text |
| Tree.InnerText | src/Library/Library.Test/TestHtmlParser.cs:188-190 | no contract of its own: `TreeFacts.NodesTextConcat` proves an element's text is its children's texts joined, `TextFacts.BuildKeepsText` that the tree keeps the parsed text, and `DocumentCases.SampleText` the value "Hi" |
| TreeFacts.NodesTextConcat | src/Library/Library.Test/TestHtmlParser.cs:188 | the inner text of a list of nodes is the concatenation of their inner texts |
| DocumentCases.SampleText | src/Library/Library.Test/TestHtmlParser.cs:189 | the `div` with id `two` has the value "Hi" |
| Tree.PrevSibling | src/Library/Library.Test/TestHtmlParser.cs:141-142 | there is no previous sibling exactly for the document and a first child; otherwise it is the child of the same parent at the index one lower |
| Tree.NextSibling | src/Library/Library.Test/TestHtmlParser.cs:143-144 | there is no next sibling exactly for the document and a last child; otherwise it is the child of the same parent at the index one higher |
| TreeFacts.DocumentSiblingBoundaries | src/Library/Library.Test/TestHtmlParser.cs:140-144 | the document has no siblings; its first node has no previous and its last no next sibling |
| TreeFacts.SiblingSymmetry | src/Library/Library.Test/TestHtmlParser.cs:149-150 | previous and next sibling are inverse to each other |
| TreeFacts.SiblingAdjacent | src/Library/Library.Test/TestHtmlParser.cs:141-144 | the previous and next siblings are the children just before and just after this one in the parent's list |
| Tree.Namespace | src/Library/Library.Test/TestHtmlParser.cs:152-157 | the namespace holds no colon and is empty for a name without one |
| Tree.LocalName | src/Library/Library.Test/TestHtmlParser.cs:152-157 | the local name is the whole name without a colon; with one, namespace + ":" + local name is the name |
| DocumentCases.NameParts | src/Library/Library.Test/TestHtmlParser.cs:152-157 | `a:b` splits into `a` and `b`; `p` has namespace "" and local name `p` |
| Tree.InnerXml | src/Library/Library.Test/TestHtmlParser.cs:200 | no contract of its own: `DocumentCases.CommentMarkup` proves a comment node's `InnerXml` is its markup, and `DocumentCases.RenderNested` the layout of nested elements |
| DocumentCases.CommentMarkup | src/Library/Library.Test/TestHtmlParser.cs:193-200 | a comment is read as one comment token in both dialects and renders verbatim |
| DocumentCases.CommentsIncluded | src/Library/Library.Test/TestHtmlParser.cs:199-200 | `<!-- comments included -->` is a comment node whose `InnerXml` is that same markup |
| Normalizing.Normalize | src/Library/Library.Test/TestHtmlParser.cs:47-53 | the loop computes the normalised text (CR/LF/tab to space, trim, collapse) and leaves no double space |
| Normalizing.NormalizedShape | src/Library/Library.Test/TestHtmlParser.cs:47-53 | normalised text holds no CR, LF, tab or double space and neither starts nor ends with white space |
| Normalizing.CollapseReplaceDouble | src/Library/Library.Test/TestHtmlParser.cs:50-51 | one pass of replacing double spaces does not change the fully collapsed result, so the loop's result does not depend on the number of passes |
| Normalizing.CollapseHasNoDouble | src/Library/Library.Test/TestHtmlParser.cs:50 | the collapsed text has no double space, so the loop's exit test holds |
| Normalizing.CollapseNoDouble | src/Library/Library.Test/TestHtmlParser.cs:50 | text without a double space is left as it is |
| Normalizing.ReplaceDoubleShrinks | src/Library/Library.Test/TestHtmlParser.cs:50-51 | each pass on text holding a double space makes it strictly shorter, so the loop ends |
| Normalizing.ReplaceChar | src/Library/Library.Test/TestHtmlParser.cs:49 | `Replace(a, b)` changes each `a` to `b` and nothing else |
| Normalizing.Trim | src/Library/Library.Test/TestHtmlParser.cs:49 | `Trim()` is the slice of the input left after removing white space at both ends: everything cut off is white space, and the result neither starts nor ends with white space |
| Normalizing.TrimStart | src/Library/Library.Test/TestHtmlParser.cs:49 | a suffix of the input whose removed prefix is all white space and which does not start with white space |
| Normalizing.TrimEnd | src/Library/Library.Test/TestHtmlParser.cs:49 | a prefix of the input whose removed suffix is all white space and which does not end with white space |
| DocumentCases.NormalizedLines | src/Library/Library.Test/TestHtmlParser.cs:60 | three rendered lines normalise to the lines joined by single spaces |
| NavigationSpec.MoveToParent | src/Library/Library.Test/TestHtmlParser.cs:163 | moving up fails exactly on the document node; from an attribute it lands on the attribute's element, otherwise on the parent path |
| NavigationSpec.MoveToFirstChild | src/Library/Library.Test/TestHtmlParser.cs:163 | moving down fails exactly when there are no children, and lands on child 0 |
| NavigationSpec.MoveToNext | src/Library/Library.Test/TestHtmlParser.cs:166 | fails exactly on an attribute or a node without a next sibling; otherwise lands on the next sibling, the child just after this one in the parent's list |
| NavigationSpec.MoveToPrevious | src/Library/Library.Test/TestHtmlParser.cs:165-167 | fails exactly on an attribute or a node without a previous sibling; otherwise lands on the previous sibling, the child just before this one in the parent's list |
| NavigationSpec.MoveToFirstAttribute | src/Library/Library.Test/TestHtmlParser.cs:127-129 | fails exactly on an attribute or an element without attributes; otherwise lands on attribute 0 of the same element |
| NavigationSpec.MoveToNextAttribute | src/Library/Library.Test/TestHtmlParser.cs:127-129 | fails exactly off an attribute or on the last one; otherwise lands on the attribute with the next index of the same element |
| NavigationSpec.FindIdFrom | src/Library/Library.Test/TestHtmlParser.cs:177-179 | a found path leads to a node with that id and no node in the searched range before it in document order (`Tree.Before`) has the id; when nothing is found, no node in the searched range has the id |
| NavigationSpec.MoveToId | src/Library/Library.Test/TestHtmlParser.cs:177-180 | a jump lands on an element with that id, the first one in document order; it fails only when no node has it |
| TreeFacts.BeforeIsStrictTotal | src/Library/Library.Test/TestHtmlParser.cs:177 | document order is a strict total order on paths, so "the first element with the id" names one element |
| TreeFacts.AncestorBefore | src/Library/Library.Test/TestHtmlParser.cs:177 | an element comes before its descendants in document order |
| NavigationFacts.NextThenPrevious | src/Library/Library.Test/TestHtmlParser.cs:165-168 | MoveToNext then MoveToPrevious returns to the same position, and the other way round |
| NavigationFacts.ChildThenParent | src/Library/Library.Test/TestHtmlParser.cs:163 | moving to any child or any attribute and then to the parent returns to the same position |
| NavigationFacts.AttributeWalk | src/Library/Library.Test/TestHtmlParser.cs:127-129 | the first attribute and then `k` next moves reach attribute `k`, for every `k` below the count, where the name and value are that attribute's |
| NavigationFacts.LeafHasNoChild | src/Library/Library.Test/TestHtmlParser.cs:163 | a text, comment or other leaf has no first child |
| Navigation.Navigator.constructor | src/Library/Library.Test/TestHtmlParser.cs:163 | `CreateNavigator()` puts a cursor on the document node, sharing the document's name table |
| Navigation.Navigator.Clone | src/Library/Library.Test/TestHtmlParser.cs:164 | a clone is a new cursor at the same position, sharing the name table |
| Navigation.Navigator.IsSamePosition | src/Library/Library.Test/TestHtmlParser.cs:168 | no contract of its own: the same document, tree and position; `Navigation.Navigator.Clone` ensures a clone is at the same position, and `DocumentCases.NavigatorWalk` that the walk returns to it |
| Navigation.Navigator.Name | src/Library/Library.Test/TestHtmlParser.cs:178-180 | no contract of its own: `DocumentCases.SampleIds` and `DocumentCases.NavigatorWalk` prove the name is `body` after `MoveToId("one")` and still after the failed jump |
| Navigation.Navigator.MoveToParent | src/Library/Library.Test/TestHtmlParser.cs:163 | returns whether the move exists; moves when it does and stays otherwise |
| Navigation.Navigator.MoveToFirstChild | src/Library/Library.Test/TestHtmlParser.cs:163 | returns whether the move exists; moves when it does and stays otherwise |
| Navigation.Navigator.MoveToNext | src/Library/Library.Test/TestHtmlParser.cs:166 | returns whether the move exists; moves when it does and stays otherwise |
| Navigation.Navigator.MoveToPrevious | src/Library/Library.Test/TestHtmlParser.cs:165-167 | returns whether the move exists; moves when it does and stays otherwise |
| Navigation.Navigator.MoveToFirstAttribute | src/Library/Library.Test/TestHtmlParser.cs:127-129 | returns whether the move exists; moves when it does and stays otherwise |
| Navigation.Navigator.MoveToNextAttribute | src/Library/Library.Test/TestHtmlParser.cs:127-129 | returns whether the move exists; moves when it does and stays otherwise |
| Navigation.Navigator.MoveToFirstNamespace | src/Library/Library.Test/TestHtmlParser.cs:170 | always fails |
| Navigation.Navigator.MoveToNextNamespace | src/Library/Library.Test/TestHtmlParser.cs:171 | always fails |
| Navigation.Navigator.MoveToId | src/Library/Library.Test/TestHtmlParser.cs:177-180 | jumps to the first element in document order with that id and returns true, or returns false and stays |
| DocumentCases.SampleParagraphs | src/Library/Library.Test/TestHtmlParser.cs:165-167 | on the first of two sibling paragraphs: no previous, next is the second, previous of the second is the first |
| DocumentCases.SampleIds | src/Library/Library.Test/TestHtmlParser.cs:177-180 | id `one` is the `body` element; `none-exists` is nowhere |
| DocumentCases.SampleDescent | src/Library/Library.Test/TestHtmlParser.cs:163 | first-child and next moves reach the first paragraph below `body` |
| DocumentCases.NavigatorWalk | src/Library/Library.Test/TestHtmlParser.cs:160-181 | the whole walk: previous fails, next and back succeed and the cursor is at the clone's position, namespace moves fail, the name table is shared, `MoveToId("one")` lands on `body` and a failed jump stays on `body` |

## Left out

- XPath evaluation (`SelectSingleNode`, `XmlDocument.LoadXml`) is done by System.Xml. The examples reach nodes by child paths instead, and the test at lines 115-135 is not modelled.
- The fixture's large `document` constant (lines 32-45) is not parsed as a whole. The tests that parse it are modelled by general lemmas: `TextFacts.BuildKeepsText`, `TreeReading.ReparseKeepsInnerXml`, the sibling lemmas and the `DocumentCases.ParagraphsAreSiblings` rule. The navigator tests are stated on the hand-built tree `DocumentCases.Sample`, a simplified tree: `html > body[id=one, class=cls]` holding `div[id=two] > "Hi"` and then `td > p[class=1], p[class=2]`. Compared with the tree the fixture's markup builds, it leaves out:
  - the XML declaration, the DOCTYPE and the white-space text before `html` at the top level;
  - the `head` element, the comment and the white-space text directly under `html`;
  - the CDATA node and the text nodes directly under `body`, among them `,`;
  - the `tr` element that holds the cells (in `Sample` the one `td` sits directly under `body`), the `b` element inside the second paragraph, and the second cell `td > p > i` with its text.
  The asserted moves do not depend on these parts. In both trees `p class=1` is the first child of its `td` and `p class=2` comes right after it, so the sibling moves of lines 165-168 give the same answers. The ids `one` and `two` are the only ids in both trees, so `MoveToId("one")` reaches `body` and `MoveToId("none-exists")` fails in both.
- The exact normalised text of the large document (lines 111-112 and 188-190) is not modelled, for the same reason.
- XHTML DTD validation, `TempFile` and `StreamWriter` file I/O (lines 68-73) are left out. The round trip is stated directly on the written markup.
- `NameTable` reference identity is modelled as a field that clones share. `BaseURI` is not modelled.
- The performance harness (lines 227-269) is left out: it consists of a directory scan, a stopwatch and console output.
- `EmptyReader` (lines 271-282) is not modelled as a separate class. The reader interface is the `Tokenizer.Event` datatype, and `Documents.LightDocument.Handle` is its one implementation.
- .NET exception classes become the `BuildSpec.ParseError` constructors. Exception messages are not modelled.
- Thread safety of the engine's id index is not modelled; the model is sequential.
- `src/Library/Library.Test/TestHash.cs` is left out: it is a wrapper over the platform's cryptographic hash functions.
- Namespace resolution (prefix to URI) is not modelled: `Namespace` is the text before the colon, as the fixture asserts.
- Documents.LightDocument.AppendElement: does not model an element created detached (`parent == null`) and attached later. Only direct creation under an existing node is modelled.
- TreeReading.ReparseKeepsInnerXml: holds for writable trees only (`Writing.Writable`). In such a tree:
  - element names and attribute names are well-formed names, and no element repeats an attribute name;
  - no attribute value holds both kinds of quote;
  - every text node is non-empty and holds no `<`, and no two text nodes are adjacent;
  - comment, CDATA and processing-instruction contents do not contain their own closing delimiter;
  - control content holds no `>` and does not start with `-` or `[`.
  The HTML-parsed document of the fixture is such a tree, but this is not shown for that particular document.
- Normalizing.Normalize: the loop test `IndexOf("  ")` is taken as an ordinal search, like the `Replace("  ", " ")` it guards. .NET's `String.IndexOf(string)` is culture-sensitive and skips ignorable characters. When such a character (a soft hyphen, U+00AD) sits between two spaces, the source's loop never ends, because `IndexOf` keeps finding a double space that `Replace` does not remove. The model ends and returns the text with that pair kept.
