/** The plain-text exporter: per page a `===Page N===` banner followed by
    one section per text, table or picture item, joined with newlines; the
    consolidated `{stem}.txt` puts an 80-character `=` separator before
    each page. There is no per-item recovery: a table export or caption
    call that raises aborts the conversion. */
module TxtConverter {
  import opened Wrappers
  import opened Dicts
  import opened Text
  import opened Values
  import opened Docs
  import opened Storage
  import opened PageMaps

  /** The first section of every page. */
  function Banner(pageNumber: int): string
  {
    "\n===Page " + IntToString(pageNumber) + "===\n"
  }

  /** A picture's section: the caption in brackets when it is non-empty. */
  function ImageSection(caption: string): string
  {
    if caption != "" then "[Image: " + caption + "]" else "[Image]"
  }

  /** The section an item contributes, `None` for kinds the exporter ignores. */
  function ItemSection(item: Item): Result<Option<string>>
  {
    match item
    case TableItem(_, frame) =>
      var f :- OrRaise(frame, "export_to_dataframe");
      var t :- OrRaise(f.toText, "to_string");
      Ok(Some(t))
    case PictureItem(_, caption) =>
      (match caption
       case NoCaptionText => Err(AttributeError("caption_text"))
       case CaptionRaises => Err(ForeignError("caption_text"))
       case CaptionText(c) => Ok(Some(ImageSection(c))))
    case TextItem(_, text) => Ok(Some(text))
    case OtherItem(_) => Ok(None)
  }

  /** The page text: the banner and the item sections joined with newlines. */
  function PageTextOf(pageNumber: int, items: seq<Item>): Result<string>
  {
    var sections :- MapAll(items, ItemSection);
    Ok(Join("\n", [Banner(pageNumber)] + Present(sections)))
  }

  function RenderPage(ser: Serialisers, pageNumber: int, page: PageData): Result<string>
  {
    PageTextOf(pageNumber, page.items)
  }

  /** The loop over one page's items. */
  method PageText(pageNumber: int, items: seq<Item>) returns (r: Result<string>)
    ensures r == PageTextOf(pageNumber, items)
  {
    var textSections := [Banner(pageNumber)];
    ghost var results: seq<Option<string>> := [];
    for j := 0 to |items|
      invariant MapAll(items[..j], ItemSection) == Ok(results)
      invariant textSections == [Banner(pageNumber)] + Present(results)
    {
      var item := items[j];
      var section: Option<string> := None;
      match item {
        case TableItem(_, frame) =>
          if frame.None? || frame.value.toText.None? {
            MapAllFails(items, ItemSection, j, results);
            return if frame.None? then Err(ForeignError("export_to_dataframe")) else Err(ForeignError("to_string"));
          }
          section := Some(frame.value.toText.value);
        case PictureItem(_, caption) =>
          if !caption.CaptionText? {
            MapAllFails(items, ItemSection, j, results);
            return if caption.NoCaptionText? then Err(AttributeError("caption_text")) else Err(ForeignError("caption_text"));
          }
          section := Some(ImageSection(caption.text));
        case TextItem(_, text) =>
          section := Some(text);
        case OtherItem(_) =>
      }
      MapAllStep(items, ItemSection, j, results, section);
      PresentStep(results, section);
      if section.Some? {
        AppendAssoc([Banner(pageNumber)], Present(results), [section.value]);
        textSections := textSections + [section.value];
      }
      results := results + [section];
    }
    assert items[..|items|] == items;
    r := Ok(Join("\n", textSections));
  }

  /** `convert_to_format`: one page text per page, in page order. */
  method ConvertToFormat(doc: Document, ser: Serialisers) returns (r: Result<Dict<int, string>>)
    ensures r == MapPages(ser, doc.pages, RenderPage)
  {
    var pagesContent: Dict<int, string> := [];
    for i := 0 to |doc.pages|
      invariant MapPages(ser, doc.pages[..i], RenderPage) == Ok(pagesContent)
    {
      var (pageNumber, page) := doc.pages[i];
      var text := PageText(pageNumber, page.items);
      assert text == RenderPage(ser, pageNumber, page);
      if text.Err? {
        MapPagesFails(ser, doc.pages, RenderPage, i, pagesContent);
        return Err(text.error);
      }
      MapPagesStep(ser, doc.pages, RenderPage, i, pagesContent, text.value);
      pagesContent := Put(pagesContent, pageNumber, text.value);
    }
    assert doc.pages[..|doc.pages|] == doc.pages;
    return Ok(pagesContent);
  }

  /** Every page text starts with its banner. */
  lemma PageStartsWithBanner(ser: Serialisers, pageNumber: int, page: PageData)
    requires RenderPage(ser, pageNumber, page).Ok?
    ensures Banner(pageNumber) <= RenderPage(ser, pageNumber, page).value
  {
    var sections := MapAll(page.items, ItemSection).value;
    JoinStartsWithFirst("\n", [Banner(pageNumber)] + Present(sections));
  }

  /** A page fails exactly when one of its tables cannot be exported or rendered, or one of its
      pictures has no caption call or its caption call raises. */
  lemma PageFailsIff(ser: Serialisers, pageNumber: int, page: PageData)
    ensures RenderPage(ser, pageNumber, page).Err? <==>
              exists i :: 0 <= i < |page.items| && ItemFails(page.items[i])
  {
    forall i | 0 <= i < |page.items|
      ensures ItemSection(page.items[i]).Err? <==> ItemFails(page.items[i])
    {
    }
  }

  predicate ItemFails(item: Item)
  {
    || (item.TableItem? && (item.frame.None? || item.frame.value.toText.None?))
    || (item.PictureItem? && !item.caption.CaptionText?)
  }

  /** Items of kinds the exporter ignores leave the page text as it is. */
  lemma {:induction false} OtherItemsIgnored(pageNumber: int, items: seq<Item>, className: string)
    ensures PageTextOf(pageNumber, items + [OtherItem(className)]) == PageTextOf(pageNumber, items)
  {
    var xs := items + [OtherItem(className)];
    assert xs[..|xs| - 1] == items;
    var r := MapAll(items, ItemSection);
    assert xs[..|items|] == items && xs[..|items| + 1] == xs;
    if r.Ok? {
      MapAllStep(xs, ItemSection, |items|, r.value, None);
      PresentStep(r.value, None);
      assert Present(r.value + [None]) == Present(r.value) + [] == Present(r.value);
      assert MapAll(xs, ItemSection) == Ok(r.value + [None]);
    }
  }

  function OutputName(stem: string): string
  {
    stem + ".txt"
  }

  /** The separator written before each page of the consolidated file. */
  function Separator(pageNumber: int): string
  {
    "\n" + Repeat('=', 80) + "\nPage " + IntToString(pageNumber) + "\n" + Repeat('=', 80) + "\n"
  }

  /** `text_sections_all`: the banner `sep(n)` and the content of each entry, in mapping order
      (the file uses `Separator` as the banner). */
  function Parts(pages: seq<(int, string)>, sep: int -> string): (r: seq<string>)
    ensures |r| == 2 * |pages|
  {
    if pages == [] then []
    else Parts(pages[..|pages| - 1], sep) + [sep(pages[|pages| - 1].0), pages[|pages| - 1].1]
  }

  /** One more entry adds its banner and then its content. */
  lemma PartsStep(pages: seq<(int, string)>, sep: int -> string, i: nat)
    requires i < |pages|
    ensures Parts(pages[..i + 1], sep) == Parts(pages[..i], sep) + [sep(pages[i].0), pages[i].1]
  {
    assert pages[..i + 1][..i] == pages[..i];
  }

  /** Entry `i` contributes parts `2i` (its banner) and `2i + 1` (its content). */
  lemma {:induction false} PartsAt(pages: seq<(int, string)>, sep: int -> string, i: nat)
    requires i < |pages|
    ensures Parts(pages, sep)[2 * i] == sep(pages[i].0)
    ensures Parts(pages, sep)[2 * i + 1] == pages[i].1
  {
    var n := |pages| - 1;
    if i < n {
      assert pages[..n][i] == pages[i];
      PartsAt(pages[..n], sep, i);
    }
  }

  /** The text of the consolidated file. */
  function Consolidated(pages: seq<(int, string)>): string
  {
    Join("\n", Parts(pages, Separator))
  }

  /** `save_with_original_extension`. */
  method SaveWithOriginalExtension(dir: OutputDir, stem: string, pages: Dict<int, string>)
    modifies dir
    ensures dir.files == old(dir.files)[OutputName(stem) := TextFile(Consolidated(pages))]
  {
    var textSectionsAll: seq<string> := [];
    for i := 0 to |pages|
      invariant textSectionsAll == Parts(pages[..i], Separator)
      invariant dir.files == old(dir.files)
    {
      var (pageNumber, content) := pages[i];
      PartsStep(pages, Separator, i);
      textSectionsAll := textSectionsAll + [Separator(pageNumber)];
      textSectionsAll := textSectionsAll + [content];
    }
    assert pages[..|pages|] == pages;
    dir.Write(OutputName(stem), TextFile(Join("\n", textSectionsAll)));
  }

  /** Adding an entry appends a newline, its separator, a newline and its content. */
  lemma ConsolidatedAppend(pages: seq<(int, string)>, pageNumber: int, content: string)
    requires pages != []
    ensures Consolidated(pages + [(pageNumber, content)])
         == Consolidated(pages) + "\n" + Separator(pageNumber) + "\n" + content
  {
    JoinPartsAppend(pages, Separator, pageNumber, content);
  }

  lemma JoinPartsAppend(pages: seq<(int, string)>, sep: int -> string, pageNumber: int, content: string)
    requires pages != []
    ensures Join("\n", Parts(pages + [(pageNumber, content)], sep))
         == Join("\n", Parts(pages, sep)) + "\n" + sep(pageNumber) + "\n" + content
  {
    var more := pages + [(pageNumber, content)];
    assert more[..|pages|] == pages;
    PartsStep(more, sep, |pages|);
    assert more[..|pages| + 1] == more;
    JoinAppend("\n", Parts(pages, sep), [sep(pageNumber), content]);
  }

  /** A non-empty file starts with the first entry's separator. */
  lemma ConsolidatedStartsWithSeparator(pages: seq<(int, string)>)
    requires pages != []
    ensures Separator(pages[0].0) <= Consolidated(pages)
  {
    PartsAt(pages, Separator, 0);
    JoinStartsWithFirst("\n", Parts(pages, Separator));
  }
}
