/** The XML exporter: per page a `<page number="N">` element with one
    `text`, `table` or `image` child per item of those kinds, serialised;
    the consolidated `{stem}.xml` parses the page strings back and appends
    them under a `<document name="stem">` root. */
module XmlConverter {
  import opened Wrappers
  import opened Dicts
  import opened Text
  import opened Values
  import opened Docs
  import opened Storage
  import opened PageMaps

  /** The text of a table element when the export or `to_string` raises. */
  const TableFallback := "[Table content not extractable]"

  /** The child element an item adds, `None` for kinds the exporter ignores. */
  function ItemElement(item: Item): (r: Result<Option<Element>>)
    ensures r.Err? ==> r.error == ForeignError("caption_text")
  {
    match item
    case TextItem(_, text) => Ok(Some(Element("text", [], text, "", [])))
    case TableItem(_, frame) =>
      var t := if frame.None? || frame.value.toText.None? then TableFallback else frame.value.toText.value;
      Ok(Some(Element("table", [], t, "", [])))
    case PictureItem(_, caption) =>
      (match caption
       case NoCaptionText => Ok(Some(Element("image", [], "", "", [])))
       case CaptionRaises => Err(ForeignError("caption_text"))
       case CaptionText(c) => Ok(Some(Element("image", if c != "" then [("caption", c)] else [], "", "", []))))
    case OtherItem(_) => Ok(None)
  }

  /** The `<page>` element of one page. */
  function PageElement(pageNumber: int, items: seq<Item>): Result<Element>
  {
    var children :- MapAll(items, ItemElement);
    Ok(Element("page", [("number", IntToString(pageNumber))], "", "", Present(children)))
  }

  /** `_convert_page_to_xml`. */
  function RenderPage(ser: Serialisers, pageNumber: int, page: PageData): Result<string>
  {
    var e :- PageElement(pageNumber, page.items);
    OrRaise(ser.xmlToString(e), "tostring")
  }

  /** An element of a kind the exporter renders, in the shape the source gives it. */
  predicate ChildFor(item: Item, e: Element)
  {
    && e.tail == "" && e.children == []
    && match item
       case TextItem(_, text) => e.tag == "text" && e.text == text && e.attributes == []
       case TableItem(_, frame) =>
         e.tag == "table" && e.attributes == []
         && (if frame.Some? && frame.value.toText.Some? then e.text == frame.value.toText.value else e.text == TableFallback)
       case PictureItem(_, caption) =>
         e.tag == "image" && e.text == ""
         && if caption.CaptionText? && caption.text != "" then e.attributes == [("caption", caption.text)]
            else e.attributes == []
       case OtherItem(_) => false
  }

  /** Items of the three rendered kinds give a child of the right shape, other kinds none; only a
      raising caption call fails. */
  lemma ItemElementShape(item: Item)
    ensures ItemElement(item).Err? <==> item.PictureItem? && item.caption.CaptionRaises?
    ensures ItemElement(item).Ok? ==> (ItemElement(item).value.None? <==> item.OtherItem?)
    ensures ItemElement(item).Ok? && ItemElement(item).value.Some? ==> ChildFor(item, ItemElement(item).value.value)
    ensures ItemElement(item).Ok? && item.PictureItem? ==>
              (ItemElement(item).value.value.attributes != [] <==> item.caption.CaptionText? && item.caption.text != "")
  {
  }

  /** The page element is `<page number="N">` and its children are those of the rendered items. */
  lemma PageElementShape(pageNumber: int, items: seq<Item>)
    ensures PageElement(pageNumber, items).Ok? <==> forall i :: 0 <= i < |items| ==> ItemElement(items[i]).Ok?
    ensures PageElement(pageNumber, items).Ok? ==>
              var e := PageElement(pageNumber, items).value;
              e.tag == "page" && e.attributes == [("number", IntToString(pageNumber))]
              && e.children == Present(MapAll(items, ItemElement).value)
              && |e.children| <= |items|
  {
  }

  /** The loop adding one `SubElement` per item. */
  method ConvertPageToXml(ser: Serialisers, pageNumber: int, items: seq<Item>) returns (r: Result<string>)
    ensures r == RenderPage(ser, pageNumber, PageData(items, None, None))
  {
    var children: seq<Element> := [];
    ghost var results: seq<Option<Element>> := [];
    for j := 0 to |items|
      invariant MapAll(items[..j], ItemElement) == Ok(results)
      invariant children == Present(results)
    {
      var item := items[j];
      var child: Option<Element> := None;
      match item {
        case TextItem(_, text) =>
          child := Some(Element("text", [], text, "", []));
        case TableItem(_, frame) =>
          var t := TableFallback;
          if frame.Some? && frame.value.toText.Some? {
            t := frame.value.toText.value;
          }
          child := Some(Element("table", [], t, "", []));
        case PictureItem(_, caption) =>
          if caption.CaptionRaises? {
            MapAllFails(items, ItemElement, j, results);
            return Err(ForeignError("caption_text"));
          }
          var attributes := [];
          if caption.CaptionText? && caption.text != "" {
            attributes := [("caption", caption.text)];
          }
          child := Some(Element("image", attributes, "", "", []));
        case OtherItem(_) =>
      }
      MapAllStep(items, ItemElement, j, results, child);
      PresentStep(results, child);
      if child.Some? {
        children := children + [child.value];
      }
      results := results + [child];
    }
    assert items[..|items|] == items;
    var pageElement := Element("page", [("number", IntToString(pageNumber))], "", "", children);
    r := OrRaise(ser.xmlToString(pageElement), "tostring");
  }

  /** `convert_to_format`: one serialised page element per page, in page order. */
  method ConvertToFormat(doc: Document, ser: Serialisers) returns (r: Result<Dict<int, string>>)
    ensures r == MapPages(ser, doc.pages, RenderPage)
  {
    var pagesContent: Dict<int, string> := [];
    for i := 0 to |doc.pages|
      invariant MapPages(ser, doc.pages[..i], RenderPage) == Ok(pagesContent)
    {
      var (pageNumber, page) := doc.pages[i];
      var xml := ConvertPageToXml(ser, pageNumber, page.items);
      assert xml == RenderPage(ser, pageNumber, page);
      if xml.Err? {
        MapPagesFails(ser, doc.pages, RenderPage, i, pagesContent);
        return Err(xml.error);
      }
      MapPagesStep(ser, doc.pages, RenderPage, i, pagesContent, xml.value);
      pagesContent := Put(pagesContent, pageNumber, xml.value);
    }
    assert doc.pages[..|doc.pages|] == doc.pages;
    return Ok(pagesContent);
  }

  function OutputName(stem: string): string
  {
    stem + ".xml"
  }

  /** `ET.fromstring` of every entry, in mapping order; a parse error aborts the save. */
  function ParsedPages(pages: seq<(int, string)>, parse: string -> Option<Element>): (r: Result<seq<Element>>)
    ensures r.Ok? <==> forall i :: 0 <= i < |pages| ==> parse(pages[i].1).Some?
    ensures r.Ok? ==> |r.value| == |pages|
    ensures r.Ok? ==> forall i :: 0 <= i < |pages| ==> r.value[i] == parse(pages[i].1).value
    ensures r.Err? ==> r.error == ForeignError("fromstring")
  {
    if pages == [] then Ok([])
    else
      var front :- ParsedPages(pages[..|pages| - 1], parse);
      var e :- OrRaise(parse(pages[|pages| - 1].1), "fromstring");
      Ok(front + [e])
  }

  /** The consolidated file: the parsed pages under a `<document name="stem">` root. */
  function ConsolidatedFile(ser: Serialisers, stem: string, pages: seq<(int, string)>): Result<File>
  {
    var parsed :- ParsedPages(pages, ser.xmlFromString);
    Ok(XmlFile(Element("document", [("name", stem)], "", "", parsed)))
  }

  /** `save_with_original_extension`: nothing is written when a page does not parse. */
  method SaveWithOriginalExtension(dir: OutputDir, ser: Serialisers, stem: string, pages: Dict<int, string>)
    returns (r: Result<()>)
    modifies dir
    ensures ConsolidatedFile(ser, stem, pages).Ok? ==>
              r == Ok(()) && dir.files == old(dir.files)[OutputName(stem) := ConsolidatedFile(ser, stem, pages).value]
    ensures ConsolidatedFile(ser, stem, pages).Err? ==>
              r == Err(ConsolidatedFile(ser, stem, pages).error) && dir.files == old(dir.files)
  {
    var children: seq<Element> := [];
    for i := 0 to |pages|
      invariant ParsedPages(pages[..i], ser.xmlFromString) == Ok(children)
      invariant dir.files == old(dir.files)
    {
      var (pageNumber, content) := pages[i];
      assert pages[..i + 1][..i] == pages[..i];
      var pageElement := ser.xmlFromString(content);
      if pageElement.None? {
        ParsedPagesFails(pages, ser.xmlFromString, i, children);
        return Err(ForeignError("fromstring"));
      }
      children := children + [pageElement.value];
    }
    assert pages[..|pages|] == pages;
    dir.Write(OutputName(stem), XmlFile(Element("document", [("name", stem)], "", "", children)));
    return Ok(());
  }

  lemma {:induction false} ParsedPagesFails(pages: seq<(int, string)>, parse: string -> Option<Element>,
                                            i: nat, acc: seq<Element>)
    requires i < |pages|
    requires ParsedPages(pages[..i], parse) == Ok(acc)
    requires parse(pages[i].1).None?
    ensures ParsedPages(pages, parse) == Err(ForeignError("fromstring"))
    decreases |pages|
  {
    if i == |pages| - 1 {
      assert pages[..|pages| - 1] == pages[..i];
    } else {
      var front := pages[..|pages| - 1];
      assert front[..i] == pages[..i];
      assert front[i] == pages[i];
      ParsedPagesFails(front, parse, i, acc);
    }
  }

  /** When parsing undoes serialising, the consolidated document of a converted document holds
      exactly its page elements, in page order. */
  lemma ConsolidatedOfConverted(ser: Serialisers, doc: Document, stem: string)
    requires MapPages(ser, doc.pages, RenderPage).Ok?
    requires forall e :: ser.xmlToString(e).Some? ==> ser.xmlFromString(ser.xmlToString(e).value) == Some(e)
    ensures var converted := MapPages(ser, doc.pages, RenderPage).value;
            var file := ConsolidatedFile(ser, stem, converted);
            file.Ok? && file.value.XmlFile?
            && file.value.root.tag == "document" && file.value.root.attributes == [("name", stem)]
            && |file.value.root.children| == |doc.pages|
            && forall i :: 0 <= i < |doc.pages| ==>
                 Ok(file.value.root.children[i]) == PageElement(doc.pages[i].0, doc.pages[i].1.items)
  {
    MapPagesShape(ser, doc.pages, RenderPage);
    var converted := MapPages(ser, doc.pages, RenderPage).value;
    forall i | 0 <= i < |doc.pages|
      ensures ser.xmlFromString(converted[i].1).Some?
      ensures Ok(ser.xmlFromString(converted[i].1).value) == PageElement(doc.pages[i].0, doc.pages[i].1.items)
    {
      assert RenderPage(ser, doc.pages[i].0, doc.pages[i].1) == Ok(converted[i].1);
      var e := PageElement(doc.pages[i].0, doc.pages[i].1.items).value;
      assert ser.xmlToString(e) == Some(converted[i].1);
    }
  }
}
