/** The HTML exporter: per page the body of `export_to_html`, serialised
    child by child with the `<body>` tags and surrounding white space
    removed; the consolidated `{stem}.html` wraps the pages in a fixed
    head and one `<div class="page">` per page.

    The clean-up of empty nested `<ul>` elements is modelled twice: as
    written, where finding such an element raises (ElementTree elements
    have no `getparent`), and as intended, where it is removed. The
    exporter uses the intended one. */
module HtmlConverter {
  import opened Wrappers
  import opened Dicts
  import opened Text
  import opened Values
  import opened Docs
  import opened Storage
  import opened PageMaps

  // ---------------------------------------------------------------------
  // Empty nested lists
  // ---------------------------------------------------------------------

  /** The source's pruning test: no text, no tail, and every child a `ul` without text or tail.
      Grandchildren are not inspected. */
  predicate EmptyNestedUl(e: Element)
  {
    && e.text == "" && e.tail == ""
    && forall i :: 0 <= i < |e.children| ==>
         e.children[i].tag == "ul" && e.children[i].text == "" && e.children[i].tail == ""
  }

  /** A `ul` element the source's clean-up acts on. */
  predicate Prunable(e: Element)
  {
    e.tag == "ul" && EmptyNestedUl(e)
  }

  /** A `ul` with no text, no tail and no children: what the intended clean-up removes once the
      lists nested in it have been removed. */
  predicate EmptyList(e: Element)
  {
    e.tag == "ul" && e.text == "" && e.tail == "" && e.children == []
  }

  /** Some element among `cs` or their descendants satisfies `p`. */
  predicate Somewhere(p: Element -> bool, cs: seq<Element>)
    decreases cs
  {
    exists i :: 0 <= i < |cs| && (p(cs[i]) || Somewhere(p, cs[i].children))
  }

  /** Some element among `cs` or their descendants meets the source's pruning test. */
  predicate HasPrunable(cs: seq<Element>)
  {
    Somewhere(Prunable, cs)
  }

  /** Some empty list lies among `cs` or their descendants. */
  predicate HasEmptyList(cs: seq<Element>)
  {
    Somewhere(EmptyList, cs)
  }

  /** As written: every `ul` below is checked, each after the `ul`s below it, and the first
      prunable one raises `AttributeError` at `getparent()`. Nothing is ever removed. */
  function CheckAll(cs: seq<Element>): (r: Result<()>)
    ensures r.Err? ==> r.error == AttributeError("getparent")
    decreases cs
  {
    if cs == [] then Ok(())
    else
      var _ :- CheckAll(cs[0].children);
      var _ :- if Prunable(cs[0]) then Err(AttributeError("getparent")) else Ok(());
      CheckAll(cs[1..])
  }

  /** As intended: remove, bottom-up, every `ul` that is empty once the lists nested in it have
      been removed. */
  function PruneAll(cs: seq<Element>): seq<Element>
    decreases cs
  {
    if cs == [] then []
    else
      var c := cs[0].(children := PruneAll(cs[0].children));
      (if EmptyList(c) then [] else [c]) + PruneAll(cs[1..])
  }

  /** The as-written clean-up raises exactly when there is something its test matches. */
  lemma {:induction false} CheckAllFailsIff(cs: seq<Element>)
    ensures CheckAll(cs).Err? <==> HasPrunable(cs)
    ensures CheckAll(cs).Err? ==> CheckAll(cs).error == AttributeError("getparent")
    decreases cs
  {
    if cs != [] {
      CheckAllFailsIff(cs[0].children);
      CheckAllFailsIff(cs[1..]);
      SomewhereSplit(Prunable, cs);
    }
  }

  /** A match lies in a forest exactly when it is the first root, inside the first tree, or in the rest. */
  lemma SomewhereSplit(p: Element -> bool, cs: seq<Element>)
    requires cs != []
    ensures Somewhere(p, cs) <==> p(cs[0]) || Somewhere(p, cs[0].children) || Somewhere(p, cs[1..])
  {
    if Somewhere(p, cs[1..]) {
      var i :| 0 <= i < |cs[1..]| && (p(cs[1..][i]) || Somewhere(p, cs[1..][i].children));
      assert cs[i + 1] == cs[1..][i];
    }
    if Somewhere(p, cs) {
      var i :| 0 <= i < |cs| && (p(cs[i]) || Somewhere(p, cs[i].children));
      if i > 0 {
        assert cs[1..][i - 1] == cs[i];
      }
    }
  }

  /** An empty list also meets the source's test, so a body the source accepts has no empty list. */
  lemma {:induction false} EmptyListIsPrunable(cs: seq<Element>)
    ensures HasEmptyList(cs) ==> HasPrunable(cs)
    decreases cs
  {
    if cs != [] {
      SomewhereSplit(EmptyList, cs);
      SomewhereSplit(Prunable, cs);
      EmptyListIsPrunable(cs[0].children);
      EmptyListIsPrunable(cs[1..]);
    }
  }

  /** After pruning no empty list is left, at any depth. */
  lemma {:induction false} PruneAllClean(cs: seq<Element>)
    ensures !HasEmptyList(PruneAll(cs))
    decreases cs
  {
    if cs != [] {
      var c := cs[0].(children := PruneAll(cs[0].children));
      PruneAllClean(cs[0].children);
      PruneAllClean(cs[1..]);
      var kept := if EmptyList(c) then [] else [c];
      NoEmptyListConcat(kept, PruneAll(cs[1..]));
    }
  }

  lemma NoEmptyListConcat(a: seq<Element>, b: seq<Element>)
    requires forall i :: 0 <= i < |a| ==> !EmptyList(a[i]) && !HasEmptyList(a[i].children)
    requires !HasEmptyList(b)
    ensures !HasEmptyList(a + b)
  {
    forall i | 0 <= i < |a + b|
      ensures !EmptyList((a + b)[i]) && !Somewhere(EmptyList, (a + b)[i].children)
    {
      if i < |a| {
        assert (a + b)[i] == a[i];
      } else {
        assert (a + b)[i] == b[i - |a|];
      }
    }
  }

  /** With no empty list, pruning changes nothing. */
  lemma {:induction false} PruneAllNoop(cs: seq<Element>)
    requires !HasEmptyList(cs)
    ensures PruneAll(cs) == cs
    decreases cs
  {
    if cs != [] {
      SomewhereSplit(EmptyList, cs);
      PruneAllNoop(cs[0].children);
      PruneAllNoop(cs[1..]);
      assert cs[0].(children := cs[0].children) == cs[0];
      assert [cs[0]] + cs[1..] == cs;
    }
  }

  /** Pruning twice is pruning once. */
  lemma PruneAllIdempotent(cs: seq<Element>)
    ensures PruneAll(PruneAll(cs)) == PruneAll(cs)
  {
    PruneAllClean(cs);
    PruneAllNoop(PruneAll(cs));
  }

  /** The text of a forest in document order: each element's text, its children's, then its tail. */
  function TextOf(cs: seq<Element>): string
    decreases cs
  {
    if cs == [] then "" else cs[0].text + TextOf(cs[0].children) + cs[0].tail + TextOf(cs[1..])
  }

  /** How many elements of a forest are not lists. */
  function NonListCount(cs: seq<Element>): nat
    decreases cs
  {
    if cs == [] then 0
    else (if cs[0].tag == "ul" then 0 else 1) + NonListCount(cs[0].children) + NonListCount(cs[1..])
  }

  /** Only empty lists are removed: the text of the body is kept exactly, in order. */
  lemma {:induction false} PruneAllKeepsText(cs: seq<Element>)
    ensures TextOf(PruneAll(cs)) == TextOf(cs)
    decreases cs
  {
    if cs != [] {
      var c := cs[0].(children := PruneAll(cs[0].children));
      var rest := PruneAll(cs[1..]);
      PruneAllKeepsText(cs[0].children);
      PruneAllKeepsText(cs[1..]);
      if EmptyList(c) {
        assert PruneAll(cs) == rest;
        assert TextOf(cs[0].children) == "";
        assert TextOf(cs) == "" + "" + "" + TextOf(cs[1..]);
      } else {
        var r := [c] + rest;
        assert PruneAll(cs) == r;
        assert r[0] == c && r[1..] == rest;
      }
    }
  }

  /** Only lists are removed: every element that is not a `ul` is kept. */
  lemma {:induction false} PruneAllKeepsNonLists(cs: seq<Element>)
    ensures NonListCount(PruneAll(cs)) == NonListCount(cs)
    decreases cs
  {
    if cs != [] {
      var c := cs[0].(children := PruneAll(cs[0].children));
      var rest := PruneAll(cs[1..]);
      PruneAllKeepsNonLists(cs[0].children);
      PruneAllKeepsNonLists(cs[1..]);
      if EmptyList(c) {
        assert PruneAll(cs) == rest;
      } else {
        var r := [c] + rest;
        assert PruneAll(cs) == r;
        assert r[0] == c && r[1..] == rest;
      }
    }
  }

  /** `<ul><ul><li>x</li></ul></ul>` is not empty and is kept, nested list and text included. */
  lemma NonEmptyNestedKept()
    ensures PruneAll([Element("ul", [], "", "", [Element("ul", [], "", "", [Element("li", [], "x", "", [])])])])
         == [Element("ul", [], "", "", [Element("ul", [], "", "", [Element("li", [], "x", "", [])])])]
  {
    var li := Element("li", [], "x", "", []);
    var inner := Element("ul", [], "", "", [li]);
    var outer := Element("ul", [], "", "", [inner]);
    assert [li][1..] == [] && [inner][1..] == [] && [outer][1..] == [];
    assert PruneAll([li]) == [li];
    assert PruneAll([inner]) == [inner];
    assert PruneAll([outer]) == [outer];
  }

  // ---------------------------------------------------------------------
  // Body extraction
  // ---------------------------------------------------------------------

  /** `root.find('body')`: the index of the first direct child tagged `body`, or -1. */
  function FindBody(children: seq<Element>): (i: int)
    ensures -1 <= i < |children|
    ensures i >= 0 ==> children[i].tag == "body"
    ensures forall k :: 0 <= k < |children| && (i < 0 || k < i) ==> children[k].tag != "body"
  {
    if children == [] then -1
    else if children[0].tag == "body" then 0
    else var j := FindBody(children[1..]); if j < 0 then -1 else j + 1
  }

  /** `ET.tostring` of each element, in order. */
  function Serialised(ser: Serialisers, cs: seq<Element>): (r: Result<seq<string>>)
    ensures r.Ok? <==> forall i :: 0 <= i < |cs| ==> ser.xmlToString(cs[i]).Some?
    ensures r.Ok? ==> |r.value| == |cs| && forall i :: 0 <= i < |cs| ==> Some(r.value[i]) == ser.xmlToString(cs[i])
    ensures r.Err? ==> r.error == ForeignError("tostring")
  {
    if cs == [] then Ok([])
    else
      var front :- Serialised(ser, cs[..|cs| - 1]);
      var s :- OrRaise(ser.xmlToString(cs[|cs| - 1]), "tostring");
      Ok(front + [s])
  }

  /** The joined body children with the first `<body>` and `</body>` removed, then stripped. */
  function BodyText(ser: Serialisers, cs: seq<Element>): (r: Result<string>)
    ensures r.Err? ==> r.error == ForeignError("tostring")
  {
    var parts :- Serialised(ser, cs);
    Ok(Strip(ReplaceFirst(ReplaceFirst(Concat(parts), "<body>", ""), "</body>", "")))
  }

  /** `_extract_body_content` as written: a prunable list below the body raises. */
  function ExtractBodyContentAsWritten(ser: Serialisers, html: string): (r: Result<string>)
    ensures ser.xmlFromString(html).None? ==> r == Ok(html)
    ensures r.Err? ==> r.error == AttributeError("getparent") || r.error == ForeignError("tostring")
  {
    match ser.xmlFromString(html)
    case None => Ok(html)
    case Some(root) =>
      var i := FindBody(root.children);
      if i < 0 then Ok(html)
      else
        var body := root.children[i];
        var _ :- CheckAll(body.children);
        BodyText(ser, body.children)
  }

  /** `_extract_body_content` as intended: prunable lists below the body are removed. */
  function ExtractBodyContent(ser: Serialisers, html: string): (r: Result<string>)
    ensures ser.xmlFromString(html).None? ==> r == Ok(html)
    ensures r.Err? ==> r.error == ForeignError("tostring")
  {
    match ser.xmlFromString(html)
    case None => Ok(html)
    case Some(root) =>
      var i := FindBody(root.children);
      if i < 0 then Ok(html)
      else BodyText(ser, PruneAll(root.children[i].children))
  }

  /** The fallbacks: unparsable input, or input without a `body` child, is returned unchanged. */
  lemma ExtractBodyFallbacks(ser: Serialisers, html: string)
    requires ser.xmlFromString(html).None? || FindBody(ser.xmlFromString(html).value.children) < 0
    ensures ExtractBodyContent(ser, html) == Ok(html)
    ensures ExtractBodyContentAsWritten(ser, html) == Ok(html)
  {
  }

  /** A found body gives stripped text: it neither starts nor ends with white space. */
  lemma ExtractBodyStripped(ser: Serialisers, html: string)
    requires ser.xmlFromString(html).Some? && FindBody(ser.xmlFromString(html).value.children) >= 0
    requires ExtractBodyContent(ser, html).Ok?
    ensures var t := ExtractBodyContent(ser, html).value; t == [] || (!IsSpace(t[0]) && !IsSpace(t[|t| - 1]))
  {
  }

  /** The as-written extraction raises exactly when the body holds a prunable list, and
      otherwise agrees with the intended one. */
  lemma AsWrittenAgreesUnlessPrunable(ser: Serialisers, html: string)
    requires ser.xmlFromString(html).Some?
    requires FindBody(ser.xmlFromString(html).value.children) >= 0
    ensures var body := ser.xmlFromString(html).value.children[FindBody(ser.xmlFromString(html).value.children)];
            (ExtractBodyContentAsWritten(ser, html) == Err(AttributeError("getparent")) <==> HasPrunable(body.children))
            && (!HasPrunable(body.children) ==> ExtractBodyContentAsWritten(ser, html) == ExtractBodyContent(ser, html))
  {
    var body := ser.xmlFromString(html).value.children[FindBody(ser.xmlFromString(html).value.children)];
    CheckAllFailsIff(body.children);
    if !HasPrunable(body.children) {
      EmptyListIsPrunable(body.children);
      PruneAllNoop(body.children);
    }
  }

  /** `<html><body><ul><li></li><ul></ul></ul></body></html>`: the inner empty list makes the
      as-written extraction raise, while the intended one drops it and keeps the outer list. */
  lemma NestedEmptyListExample(ser: Serialisers, html: string)
    requires ser.xmlFromString(html) == Some(Element("html", [], "", "", [Element("body", [], "", "", [ExampleList()])]))
    ensures ExtractBodyContentAsWritten(ser, html) == Err(AttributeError("getparent"))
    ensures ExtractBodyContent(ser, html) == BodyText(ser, [Element("ul", [], "", "", [Leaf("li")])])
  {
    var inner := ExampleList().children;
    assert inner[1..] == [Leaf("ul")];
    assert inner[1..][1..] == [];
    assert Prunable(Leaf("ul"));
    assert CheckAll(inner[1..]).Err?;
    assert CheckAll(inner).Err?;
    assert CheckAll([ExampleList()]).Err?;
    assert PruneAll(inner[1..]) == [];
    assert PruneAll(inner) == [Leaf("li")];
    assert !EmptyList(Element("ul", [], "", "", [Leaf("li")]));
    assert PruneAll([ExampleList()]) == [Element("ul", [], "", "", [Leaf("li")])];
  }

  function Leaf(tag: string): Element
  {
    Element(tag, [], "", "", [])
  }

  /** `<ul><li></li><ul></ul></ul>`. */
  function ExampleList(): Element
  {
    Element("ul", [], "", "", [Leaf("li"), Leaf("ul")])
  }

  // ---------------------------------------------------------------------
  // Pages and the consolidated file
  // ---------------------------------------------------------------------

  /** The body content of `doc.export_to_html(page_no=n)`. */
  function RenderPage(ser: Serialisers, pageNumber: int, page: PageData): Result<string>
  {
    var html :- OrRaise(page.html, "export_to_html");
    ExtractBodyContent(ser, html)
  }

  /** The body content of a page as the source computes it, with the as-written clean-up. */
  function RenderPageAsWritten(ser: Serialisers, pageNumber: int, page: PageData): Result<string>
  {
    var html :- OrRaise(page.html, "export_to_html");
    ExtractBodyContentAsWritten(ser, html)
  }

  /** A page the as-written exporter renders is rendered the same by the intended one; where only
      the intended one succeeds, the as-written one raises AttributeError. */
  lemma RenderPageAgrees(ser: Serialisers, pageNumber: int, page: PageData)
    ensures RenderPageAsWritten(ser, pageNumber, page).Ok? ==>
              RenderPage(ser, pageNumber, page) == RenderPageAsWritten(ser, pageNumber, page)
    ensures RenderPageAsWritten(ser, pageNumber, page).Err? && RenderPage(ser, pageNumber, page).Ok? ==>
              RenderPageAsWritten(ser, pageNumber, page).error == AttributeError("getparent")
  {
    if page.html.Some? {
      var html := page.html.value;
      var root := ser.xmlFromString(html);
      if root.Some? && FindBody(root.value.children) >= 0 {
        AsWrittenAgreesUnlessPrunable(ser, html);
        var body := root.value.children[FindBody(root.value.children)];
        CheckAllFailsIff(body.children);
      }
    }
  }

  /** Whenever the as-written exporter converts a document, the intended one gives the same pages. */
  lemma ConvertAsWrittenAgrees(ser: Serialisers, doc: Document)
    ensures MapPages(ser, doc.pages, RenderPageAsWritten).Ok? ==>
              MapPages(ser, doc.pages, RenderPage) == MapPages(ser, doc.pages, RenderPageAsWritten)
  {
    forall i | 0 <= i < |doc.pages| && RenderPageAsWritten(ser, doc.pages[i].0, doc.pages[i].1).Ok?
      ensures RenderPage(ser, doc.pages[i].0, doc.pages[i].1) == RenderPageAsWritten(ser, doc.pages[i].0, doc.pages[i].1)
    {
      RenderPageAgrees(ser, doc.pages[i].0, doc.pages[i].1);
    }
    MapPagesAgree(ser, doc.pages, RenderPageAsWritten, RenderPage);
  }

  /** `convert_to_format`: one body content per page, in page order. */
  method ConvertToFormat(doc: Document, ser: Serialisers) returns (r: Result<Dict<int, string>>)
    ensures r == MapPages(ser, doc.pages, RenderPage)
  {
    var pagesContent: Dict<int, string> := [];
    for i := 0 to |doc.pages|
      invariant MapPages(ser, doc.pages[..i], RenderPage) == Ok(pagesContent)
    {
      var (pageNumber, page) := doc.pages[i];
      var body: Result<string>;
      if page.html.None? {
        body := Err(ForeignError("export_to_html"));
      } else {
        body := ExtractBodyContent(ser, page.html.value);
      }
      if body.Err? {
        MapPagesFails(ser, doc.pages, RenderPage, i, pagesContent);
        return Err(body.error);
      }
      MapPagesStep(ser, doc.pages, RenderPage, i, pagesContent, body.value);
      pagesContent := Put(pagesContent, pageNumber, body.value);
    }
    assert doc.pages[..|doc.pages|] == doc.pages;
    return Ok(pagesContent);
  }

  function OutputName(stem: string): string
  {
    stem + ".html"
  }

  /** The fixed lines before the first page. */
  const Head: seq<string> := [
    "<!DOCTYPE html>",
    "<html>",
    "<head>",
    "<title>PDF Conversion</title>",
    "<style>",
    "body { max-width: 800px; margin: 0 auto; padding: 20px; font-family: Arial, sans-serif; box-sizing: border-box; }",
    "img { max-width: 100%; height: auto; }",
    ".page { margin-bottom: 40px; padding: 20px; border: 1px solid #ddd; box-sizing: border-box; }",
    "h2 { color: #333; }",
    ".page ul {",
    "    max-width: 100%;",
    "    box-sizing: border-box;",
    "    padding-left: 1px;",
    "}",
    ".page li {",
    "    word-wrap: break-word;",
    "    overflow-wrap: break-word;",
    "}",
    "</style>",
    "</head>",
    "<body>"
  ]

  /** The fixed lines after the last page. */
  const Tail: seq<string> := ["</body>", "</html>"]

  function PageOpen(): string
  {
    "<div class=\"page\">"
  }

  function PageHeading(pageNumber: int): string
  {
    "<h2>Page " + IntToString(pageNumber) + "</h2>"
  }

  function PageClose(): string
  {
    "</div>"
  }

  /** The four lines of one page. */
  function PageBlock(pageNumber: int, content: string): seq<string>
  {
    [PageOpen(), PageHeading(pageNumber), content, PageClose()]
  }

  /** The page blocks of the entries, in mapping order. */
  function Blocks(pages: seq<(int, string)>): (r: seq<string>)
    ensures |r| == 4 * |pages|
  {
    if pages == [] then []
    else Blocks(pages[..|pages| - 1]) + PageBlock(pages[|pages| - 1].0, pages[|pages| - 1].1)
  }

  /** Line `j` of entry `i`'s block is line `4i + j` of the blocks. */
  lemma {:induction false} BlocksAt(pages: seq<(int, string)>, i: nat, j: nat)
    requires i < |pages| && j < 4
    ensures Blocks(pages)[4 * i + j] == PageBlock(pages[i].0, pages[i].1)[j]
    decreases |pages|
  {
    var n := |pages| - 1;
    var front := pages[..n];
    var a := Blocks(front);
    var b := PageBlock(pages[n].0, pages[n].1);
    assert Blocks(pages) == a + b;
    assert |a| == 4 * n;
    if i < n {
      BlocksAt(front, i, j);
      assert front[i] == pages[i];
      assert 4 * i + j < |a|;
      assert (a + b)[4 * i + j] == a[4 * i + j];
    } else {
      assert 4 * i + j - |a| == j;
      assert (a + b)[4 * i + j] == b[j];
    }
  }

  /** One more entry appends its block. */
  lemma BlocksStep(pages: seq<(int, string)>, i: nat)
    requires i < |pages|
    ensures Blocks(pages[..i + 1]) == Blocks(pages[..i]) + PageBlock(pages[i].0, pages[i].1)
  {
    assert pages[..i + 1][..i] == pages[..i];
  }

  /** `html_content`: head, page blocks, tail. */
  function Lines(pages: seq<(int, string)>): seq<string>
  {
    Head + Blocks(pages) + Tail
  }

  /** The text of the consolidated file. */
  function Consolidated(pages: seq<(int, string)>): string
  {
    Join("\n", Lines(pages))
  }

  /** `save_with_original_extension`. */
  method SaveWithOriginalExtension(dir: OutputDir, stem: string, pages: Dict<int, string>)
    modifies dir
    ensures dir.files == old(dir.files)[OutputName(stem) := TextFile(Consolidated(pages))]
  {
    var htmlContent := Head;
    ghost var blocks: seq<string> := [];
    for i := 0 to |pages|
      invariant blocks == Blocks(pages[..i])
      invariant htmlContent == Head + blocks
      invariant dir.files == old(dir.files)
    {
      var (pageNumber, content) := pages[i];
      BlocksStep(pages, i);
      AppendFour(htmlContent, PageOpen(), PageHeading(pageNumber), content, PageClose());
      AppendAssoc(Head, blocks, PageBlock(pageNumber, content));
      htmlContent := htmlContent + [PageOpen()];
      htmlContent := htmlContent + [PageHeading(pageNumber)];
      htmlContent := htmlContent + [content];
      htmlContent := htmlContent + [PageClose()];
      blocks := blocks + PageBlock(pageNumber, content);
    }
    htmlContent := htmlContent + Tail;
    assert pages[..|pages|] == pages;
    dir.Write(OutputName(stem), TextFile(Join("\n", htmlContent)));
  }

  /** The lines of the file: the 21 head lines, four lines per entry in mapping order, then the
      two closing lines. */
  lemma LinesShape(pages: seq<(int, string)>)
    ensures |Lines(pages)| == |Head| + 4 * |pages| + 2 && |Head| == 21
    ensures Lines(pages)[..21] == Head
    ensures forall i :: 0 <= i < |pages| ==> Lines(pages)[21 + 4 * i + 2] == pages[i].1
    ensures Lines(pages)[|Lines(pages)| - 2..] == ["</body>", "</html>"]
  {
    ThreeParts(Head, Blocks(pages), Tail);
    LinesContent(pages);
  }

  lemma LinesContent(pages: seq<(int, string)>)
    ensures forall i :: 0 <= i < |pages| ==> Lines(pages)[21 + 4 * i + 2] == pages[i].1
  {
    assert |Head| == 21;
    forall i | 0 <= i < |pages|
      ensures Lines(pages)[21 + 4 * i + 2] == pages[i].1
    {
      LineOfContent(Head, pages, Tail, i);
    }
  }

  /** Between any head and tail, entry `i`'s content is line `|head| + 4i + 2`. */
  lemma LineOfContent(head: seq<string>, pages: seq<(int, string)>, tail: seq<string>, i: nat)
    requires i < |pages|
    ensures (head + Blocks(pages) + tail)[|head| + 4 * i + 2] == pages[i].1
  {
    BlocksAt(pages, i, 2);
    MiddleAt(head, Blocks(pages), tail, 4 * i + 2);
  }

  /** The file starts with the doctype line, whatever the pages. */
  lemma ConsolidatedStartsWithDoctype(pages: seq<(int, string)>)
    ensures "<!DOCTYPE html>" <= Consolidated(pages)
  {
    JoinStartsWithFirst("\n", Lines(pages));
  }
}
