/** The Markdown exporter: one `export_to_markdown` rendering per page, and
    a consolidated `{stem}.md` made of `## Page N` sections. */
module MarkdownConverter {
  import opened Wrappers
  import opened Dicts
  import opened Text
  import opened Values
  import opened Docs
  import opened Storage
  import opened PageMaps

  /** `doc.export_to_markdown(page_no=n)`. */
  function RenderPage(ser: Serialisers, pageNumber: int, page: PageData): Result<string>
  {
    OrRaise(page.markdown, "export_to_markdown")
  }

  /** `convert_to_format`: one entry per page, in page order, holding that page's Markdown. */
  method ConvertToFormat(doc: Document, ser: Serialisers) returns (r: Result<Dict<int, string>>)
    ensures r == MapPages(ser, doc.pages, RenderPage)
    ensures r.Ok? <==> forall i :: 0 <= i < |doc.pages| ==> doc.pages[i].1.markdown.Some?
    ensures r.Ok? ==> Keys(r.value) == Keys(doc.pages)
    ensures r.Ok? ==> forall i :: 0 <= i < |doc.pages| ==> r.value[i].1 == doc.pages[i].1.markdown.value
  {
    var pagesContent: Dict<int, string> := [];
    for i := 0 to |doc.pages|
      invariant MapPages(ser, doc.pages[..i], RenderPage) == Ok(pagesContent)
    {
      var (pageNumber, page) := doc.pages[i];
      if page.markdown.None? {
        MapPagesFails(ser, doc.pages, RenderPage, i, pagesContent);
        MapPagesShape(ser, doc.pages, RenderPage);
        return Err(ForeignError("export_to_markdown"));
      }
      MapPagesStep(ser, doc.pages, RenderPage, i, pagesContent, page.markdown.value);
      pagesContent := Put(pagesContent, pageNumber, page.markdown.value);
    }
    assert doc.pages[..|doc.pages|] == doc.pages;
    MapPagesShape(ser, doc.pages, RenderPage);
    return Ok(pagesContent);
  }

  function OutputName(stem: string): string
  {
    stem + ".md"
  }

  /** The heading written before each entry's content. */
  function Heading(pageNumber: int): string
  {
    "## Page " + IntToString(pageNumber) + "\n\n"
  }

  /** What is written for one mapping entry. */
  function Section(pageNumber: int, content: string): string
  {
    Heading(pageNumber) + (content + "\n\n")
  }

  /** The sections of the entries, in mapping order. */
  function Sections(pages: seq<(int, string)>): (r: seq<string>)
    ensures |r| == |pages|
    ensures forall i :: 0 <= i < |pages| ==> r[i] == Section(pages[i].0, pages[i].1)
  {
    seq(|pages|, i requires 0 <= i < |pages| => Section(pages[i].0, pages[i].1))
  }

  /** The text of the consolidated file. */
  function Consolidated(pages: seq<(int, string)>): string
  {
    Concat(Sections(pages))
  }

  /** `save_with_original_extension`: the sections written one after another. */
  method SaveWithOriginalExtension(dir: OutputDir, stem: string, pages: Dict<int, string>)
    modifies dir
    ensures dir.files == old(dir.files)[OutputName(stem) := TextFile(Consolidated(pages))]
  {
    var text := "";
    for i := 0 to |pages|
      invariant text == Consolidated(pages[..i])
      invariant dir.files == old(dir.files)
    {
      var (pageNumber, content) := pages[i];
      ConsolidatedStep(pages, i);
      AppendAssoc(text, Heading(pageNumber), content + "\n\n");
      text := text + Heading(pageNumber);
      text := text + (content + "\n\n");
    }
    assert pages[..|pages|] == pages;
    dir.Write(OutputName(stem), TextFile(text));
  }

  lemma ConsolidatedStep(pages: seq<(int, string)>, i: nat)
    requires i < |pages|
    ensures Consolidated(pages[..i + 1]) == Consolidated(pages[..i]) + Section(pages[i].0, pages[i].1)
  {
    assert Sections(pages[..i + 1]) == Sections(pages[..i]) + [Section(pages[i].0, pages[i].1)];
    ConcatOne(Sections(pages[..i]), Section(pages[i].0, pages[i].1));
  }

  /** The file splits at any entry into the files of the two halves: nothing is written between,
      before or after the sections. */
  lemma ConsolidatedSplit(pages: seq<(int, string)>, k: nat)
    requires k <= |pages|
    ensures Consolidated(pages) == Consolidated(pages[..k]) + Consolidated(pages[k..])
  {
    assert Sections(pages) == Sections(pages[..k]) + Sections(pages[k..]);
    ConcatAppend(Sections(pages[..k]), Sections(pages[k..]));
  }

  /** An empty mapping gives an empty file; otherwise the file starts with the first entry's section. */
  lemma ConsolidatedStartsWithFirstPage(pages: seq<(int, string)>)
    ensures pages == [] ==> Consolidated(pages) == ""
    ensures pages != [] ==> Section(pages[0].0, pages[0].1) <= Consolidated(pages)
  {
    if pages != [] {
      ConsolidatedSplit(pages, 1);
      assert Sections(pages[..1]) == [] + [Section(pages[0].0, pages[0].1)];
      ConcatOne([], Section(pages[0].0, pages[0].1));
    }
  }
}
