/** The CSV exporter: one row record per item, skipping an item whose
    processing raises; the consolidated `{stem}.csv` is a header row
    followed by every page's rows in mapping order. */
module CsvConverter {
  import opened Wrappers
  import opened Dicts
  import opened Text
  import opened Values
  import opened Docs
  import opened Storage
  import opened PageMaps

  /** The row for one item, or `None` when processing it raises (only a picture's caption call can). */
  function RowFor(pageNumber: int, item: Item): Option<CsvRow>
  {
    match item
    case TextItem(cls, text) => Some(CsvRow(pageNumber, cls, text, ""))
    case TableItem(cls, frame) =>
      if frame.None? || frame.value.repr.None? then Some(CsvRow(pageNumber, cls, "Table (not extractable)", ""))
      else Some(CsvRow(pageNumber, cls, "Table", frame.value.repr.value))
    case PictureItem(cls, caption) =>
      (match caption
       case NoCaptionText => Some(CsvRow(pageNumber, cls, "Image", ""))
       case CaptionRaises => None
       case CaptionText(c) => Some(CsvRow(pageNumber, cls, "Image", c)))
    case OtherItem(cls) => Some(CsvRow(pageNumber, cls, "", ""))
  }

  /** `csv_rows_for_page`: the rows of the items that did not raise, in iteration order. */
  function PageRows(pageNumber: int, items: seq<Item>): (r: seq<CsvRow>)
    ensures |r| <= |items|
    ensures forall k :: 0 <= k < |r| ==> r[k].pageNumber == pageNumber
  {
    if items == [] then []
    else
      var last := RowFor(pageNumber, items[|items| - 1]);
      PageRows(pageNumber, items[..|items| - 1]) + (if last.Some? then [last.value] else [])
  }

  /** How many items raise: the pictures whose caption call raises. */
  function Raising(items: seq<Item>): nat
  {
    if items == [] then 0
    else Raising(items[..|items| - 1]) + (if items[|items| - 1].PictureItem? && items[|items| - 1].caption.CaptionRaises? then 1 else 0)
  }

  function RenderPage(ser: Serialisers, pageNumber: int, page: PageData): Result<seq<CsvRow>>
  {
    Ok(PageRows(pageNumber, page.items))
  }

  /** Every item that does not raise yields exactly one row, typed by its class name. */
  lemma RowForShape(pageNumber: int, item: Item)
    ensures RowFor(pageNumber, item).None? <==> item.PictureItem? && item.caption.CaptionRaises?
    ensures RowFor(pageNumber, item).Some? ==>
              RowFor(pageNumber, item).value.pageNumber == pageNumber
              && RowFor(pageNumber, item).value.elementType == item.className
  {
  }

  /** One row per item except the raising ones: a failing item is skipped and the others are kept. */
  lemma {:induction false} PageRowsCount(pageNumber: int, items: seq<Item>)
    ensures |PageRows(pageNumber, items)| == |items| - Raising(items)
    ensures Raising(items) <= |items|
  {
    if items != [] {
      PageRowsCount(pageNumber, items[..|items| - 1]);
      RowForShape(pageNumber, items[|items| - 1]);
    }
  }

  /** Rows keep the order of their items: the rows of a longer list extend those of its prefix. */
  lemma PageRowsAppend(pageNumber: int, items: seq<Item>, item: Item)
    ensures PageRows(pageNumber, items + [item]) ==
              PageRows(pageNumber, items) + (if RowFor(pageNumber, item).Some? then [RowFor(pageNumber, item).value] else [])
  {
    assert (items + [item])[..|items|] == items;
  }

  /** A page's rows are the rows of its items, taken one per item in iteration order, with the
      raising items dropped. */
  lemma {:induction false} PageRowsPresent(pageNumber: int, items: seq<Item>)
    ensures PageRows(pageNumber, items) == Present(seq(|items|, i requires 0 <= i < |items| => RowFor(pageNumber, items[i])))
  {
    var all := seq(|items|, i requires 0 <= i < |items| => RowFor(pageNumber, items[i]));
    if items != [] {
      var n := |items| - 1;
      var front := items[..n];
      PageRowsPresent(pageNumber, front);
      assert all[..n] == seq(|front|, i requires 0 <= i < |front| => RowFor(pageNumber, front[i]));
      assert all[n] == RowFor(pageNumber, items[n]);
    }
  }

  /** The CSV exporter never fails a page. */
  lemma ConvertNeverFails(ser: Serialisers, doc: Document)
    ensures MapPages(ser, doc.pages, RenderPage).Ok?
  {
    MapPagesShape(ser, doc.pages, RenderPage);
  }

  /** The inner loop over one page's items. */
  method RowsForPage(pageNumber: int, items: seq<Item>) returns (rows: seq<CsvRow>)
    ensures rows == PageRows(pageNumber, items)
  {
    rows := [];
    for j := 0 to |items|
      invariant rows == PageRows(pageNumber, items[..j])
    {
      var item := items[j];
      assert items[..j + 1] == items[..j] + [item];
      PageRowsAppend(pageNumber, items[..j], item);
      var elementType := item.className;
      var content := "";
      var additionalInfo := "";
      var raised := false;
      match item {
        case TextItem(_, text) =>
          content := text;
        case TableItem(_, frame) =>
          content := "Table";
          if frame.Some? && frame.value.repr.Some? {
            additionalInfo := frame.value.repr.value;
          } else {
            content := "Table (not extractable)";
          }
        case PictureItem(_, caption) =>
          content := "Image";
          match caption {
            case NoCaptionText =>
            case CaptionRaises =>
              raised := true;
            case CaptionText(c) =>
              additionalInfo := c;
          }
        case OtherItem(_) =>
      }
      if !raised {
        rows := rows + [CsvRow(pageNumber, elementType, content, additionalInfo)];
      }
    }
    assert items[..|items|] == items;
  }

  /** `convert_to_format`: one list of rows per page, in page order. */
  method ConvertToFormat(doc: Document, ser: Serialisers) returns (r: Dict<int, seq<CsvRow>>)
    ensures MapPages(ser, doc.pages, RenderPage) == Ok(r)
    ensures Keys(r) == Keys(doc.pages)
  {
    var pagesCsvData: Dict<int, seq<CsvRow>> := [];
    for i := 0 to |doc.pages|
      invariant MapPages(ser, doc.pages[..i], RenderPage) == Ok(pagesCsvData)
    {
      var (pageNumber, page) := doc.pages[i];
      var rows := RowsForPage(pageNumber, page.items);
      MapPagesStep(ser, doc.pages, RenderPage, i, pagesCsvData, rows);
      pagesCsvData := Put(pagesCsvData, pageNumber, rows);
    }
    assert doc.pages[..|doc.pages|] == doc.pages;
    MapPagesShape(ser, doc.pages, RenderPage);
    return pagesCsvData;
  }

  function OutputName(stem: string): string
  {
    stem + ".csv"
  }

  const Header: seq<string> := ["page_number", "element_type", "content", "additional_info"]

  /** The four fields written for a row. */
  function Fields(row: CsvRow): seq<string>
  {
    [IntToString(row.pageNumber), row.elementType, row.content, row.additionalInfo]
  }

  /** The lines written for one page's rows. */
  function Lines(rows: seq<CsvRow>): (r: seq<seq<string>>)
    ensures |r| == |rows|
    ensures forall j :: 0 <= j < |rows| ==> r[j] == Fields(rows[j])
  {
    seq(|rows|, j requires 0 <= j < |rows| => Fields(rows[j]))
  }

  /** Every page's lines, in mapping order. */
  function PageLines(pages: seq<(int, seq<CsvRow>)>): (r: seq<seq<seq<string>>>)
    ensures |r| == |pages|
    ensures forall i :: 0 <= i < |pages| ==> r[i] == Lines(pages[i].1)
  {
    seq(|pages|, i requires 0 <= i < |pages| => Lines(pages[i].1))
  }

  /** The lines of the consolidated file. */
  function Consolidated(pages: seq<(int, seq<CsvRow>)>): seq<seq<string>>
  {
    [Header] + Concat(PageLines(pages))
  }

  /** `save_with_original_extension`: the header, then the nested loops over pages and rows. */
  method SaveWithOriginalExtension(dir: OutputDir, stem: string, pages: Dict<int, seq<CsvRow>>)
    modifies dir
    ensures dir.files == old(dir.files)[OutputName(stem) := CsvFile(Consolidated(pages))]
  {
    var lines := [Header];
    for i := 0 to |pages|
      invariant lines == [Header] + Concat(PageLines(pages[..i]))
      invariant dir.files == old(dir.files)
    {
      var (pageNumber, csvRows) := pages[i];
      ghost var before := lines;
      for j := 0 to |csvRows|
        invariant lines == before + Lines(csvRows[..j])
        invariant dir.files == old(dir.files)
      {
        var row := csvRows[j];
        LinesStep(csvRows, j);
        lines := lines + [[IntToString(row.pageNumber), row.elementType, row.content, row.additionalInfo]];
      }
      assert csvRows[..|csvRows|] == csvRows;
      PageLinesStep(pages, i);
      AppendAssoc([Header], Concat(PageLines(pages[..i])), Lines(csvRows));
    }
    assert pages[..|pages|] == pages;
    dir.Write(OutputName(stem), CsvFile(lines));
  }

  lemma LinesStep(rows: seq<CsvRow>, j: nat)
    requires j < |rows|
    ensures Lines(rows[..j + 1]) == Lines(rows[..j]) + [Fields(rows[j])]
  {
    assert Lines(rows[..j + 1])[j] == Fields(rows[j]);
  }

  lemma PageLinesStep(pages: seq<(int, seq<CsvRow>)>, i: nat)
    requires i < |pages|
    ensures Concat(PageLines(pages[..i + 1])) == Concat(PageLines(pages[..i])) + Lines(pages[i].1)
  {
    assert PageLines(pages[..i + 1]) == PageLines(pages[..i]) + [Lines(pages[i].1)];
    ConcatOne(PageLines(pages[..i]), Lines(pages[i].1));
  }

  /** Every line of the consolidated file has four fields, and each body line is the fields of
      some page's row. */
  lemma ConsolidatedLines(pages: seq<(int, seq<CsvRow>)>, k: nat)
    requires k < |Consolidated(pages)|
    ensures |Consolidated(pages)[k]| == 4
    ensures k > 0 ==> exists i, j :: 0 <= i < |pages| && 0 <= j < |pages[i].1| && Consolidated(pages)[k] == Fields(pages[i].1[j])
  {
    if k > 0 {
      ConcatElement(PageLines(pages), k - 1);
      var i, j :| 0 <= i < |PageLines(pages)| && 0 <= j < |PageLines(pages)[i]|
                  && Concat(PageLines(pages))[k - 1] == PageLines(pages)[i][j];
      assert Consolidated(pages)[k] == Fields(pages[i].1[j]);
    }
  }

  /** The rows of the pages appear in mapping order: the file of a longer mapping extends the file
      of its prefix by the new page's lines. */
  lemma ConsolidatedAppend(pages: seq<(int, seq<CsvRow>)>, pageNumber: int, rows: seq<CsvRow>)
    ensures Consolidated(pages + [(pageNumber, rows)]) == Consolidated(pages) + Lines(rows)
  {
    assert PageLines(pages + [(pageNumber, rows)]) == PageLines(pages) + [Lines(rows)];
    ConcatOne(PageLines(pages), Lines(rows));
  }
}
