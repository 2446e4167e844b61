/** The JSON exporter: per page the page record of `_get_dict_for_page`
    serialised with `json.dumps`; the consolidated `{stem}.json` parses every
    page back with `json.loads` into a `{document_name, pages}` record. */
module JsonConverter {
  import opened Wrappers
  import opened Dicts
  import opened Values
  import opened Docs
  import opened Storage
  import opened PageMaps
  import opened Records

  /** `_get_json_for_page`. */
  function RenderPage(ser: Serialisers, pageNumber: int, page: PageData): Result<string>
  {
    var record :- PageRecord(pageNumber, page.items);
    OrRaise(ser.jsonDumps(record), "json.dumps")
  }

  method GetJsonForPage(ser: Serialisers, pageNumber: int, items: seq<Item>) returns (r: Result<string>)
    ensures r == RenderPage(ser, pageNumber, PageData(items, None, None))
  {
    var record := GetDictForPage(pageNumber, items);
    if record.Err? {
      return Err(record.error);
    }
    r := OrRaise(ser.jsonDumps(record.value), "json.dumps");
  }

  /** `convert_to_format`: one serialised page record per page, in page order. */
  method ConvertToFormat(doc: Document, ser: Serialisers) returns (r: Result<Dict<int, string>>)
    ensures r == MapPages(ser, doc.pages, RenderPage)
  {
    var pagesContent: Dict<int, string> := [];
    for i := 0 to |doc.pages|
      invariant MapPages(ser, doc.pages[..i], RenderPage) == Ok(pagesContent)
    {
      var (pageNumber, page) := doc.pages[i];
      var text := GetJsonForPage(ser, pageNumber, page.items);
      assert text == RenderPage(ser, pageNumber, page);
      if text.Err? {
        MapPagesFails(ser, doc.pages, RenderPage, i, pagesContent);
        return Err(text.error);
      }
      MapPagesStep(ser, doc.pages, RenderPage, i, pagesContent, text.value);
      pagesContent := Put(pagesContent, pageNumber, text.value);
    }
    assert doc.pages[..|doc.pages|] == doc.pages;
    return Ok(pagesContent);
  }

  function OutputName(stem: string): string
  {
    stem + ".json"
  }

  /** The consolidated file: the document record, unless a page does not parse back. */
  function ConsolidatedFile(ser: Serialisers, stem: string, pages: Dict<int, string>): Result<File>
  {
    var data :- DocumentRecord(stem, pages, ser.jsonLoads, "json.loads");
    Ok(DataFile(data))
  }

  /** `save_with_original_extension`: nothing is written when a page does not parse back. */
  method SaveWithOriginalExtension(dir: OutputDir, ser: Serialisers, stem: string, pages: Dict<int, string>)
    returns (r: Result<()>)
    modifies dir
    ensures ConsolidatedFile(ser, stem, pages).Ok? ==>
              r == Ok(()) && dir.files == old(dir.files)[OutputName(stem) := ConsolidatedFile(ser, stem, pages).value]
    ensures ConsolidatedFile(ser, stem, pages).Err? ==>
              r == Err(ConsolidatedFile(ser, stem, pages).error) && dir.files == old(dir.files)
  {
    var data := BuildDocumentRecord(stem, pages, ser.jsonLoads, "json.loads");
    if data.Err? {
      return Err(data.error);
    }
    dir.Write(OutputName(stem), DataFile(data.value));
    return Ok(());
  }

  /** When parsing undoes serialising, the consolidated record of a converted document names the
      stem and holds, in page order, each page's number and its page record. */
  lemma ConsolidatedOfConverted(ser: Serialisers, doc: Document, stem: string)
    requires MapPages(ser, doc.pages, RenderPage).Ok?
    requires forall v :: ser.jsonDumps(v).Some? ==> ser.jsonLoads(ser.jsonDumps(v).value) == Some(v)
    ensures var converted := MapPages(ser, doc.pages, RenderPage).value;
            var file := ConsolidatedFile(ser, stem, converted);
            file.Ok? && file.value.DataFile?
            && file.value.data.fields[0] == ("document_name", Str(stem))
            && file.value.data.fields[1].0 == "pages"
            && |file.value.data.fields[1].1.elems| == |doc.pages|
            && forall i :: 0 <= i < |doc.pages| ==>
                 var entry := file.value.data.fields[1].1.elems[i];
                 entry.fields[0] == ("page_number", Int(doc.pages[i].0))
                 && Ok(entry.fields[1].1) == PageRecord(doc.pages[i].0, doc.pages[i].1.items)
  {
    MapPagesShape(ser, doc.pages, RenderPage);
    var converted := MapPages(ser, doc.pages, RenderPage).value;
    assert |converted| == |Keys(converted)| == |doc.pages|;
    forall i | 0 <= i < |doc.pages|
      ensures converted[i].0 == doc.pages[i].0
      ensures ser.jsonLoads(converted[i].1).Some?
      ensures Ok(ser.jsonLoads(converted[i].1).value) == PageRecord(doc.pages[i].0, doc.pages[i].1.items)
    {
      assert Keys(converted)[i] == Keys(doc.pages)[i];
      assert RenderPage(ser, doc.pages[i].0, doc.pages[i].1) == Ok(converted[i].1);
      var v := PageRecord(doc.pages[i].0, doc.pages[i].1.items).value;
      assert ser.jsonDumps(v) == Some(converted[i].1);
    }
    DocumentRecordShape(stem, converted, ser.jsonLoads, "json.loads");
    var record := DocumentRecord(stem, converted, ser.jsonLoads, "json.loads");
    assert ConsolidatedFile(ser, stem, converted) == Ok(DataFile(record.value));
  }
}
