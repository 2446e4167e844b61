# Page-wise PDF converter: a Dafny model

This project models the core of `docling_page_wise_pdf_converter`. The converter exports a parsed
PDF document to Markdown, HTML, plain text, JSON, YAML, CSV and XML, **page by page**. For every
successful export it does three things:

- It caches the page→content mapping as an artifact `{stem}.{format}.json` in the output directory.
- It writes one consolidated file per format, `{stem}.md`, `.html`, `.txt`, `.json`, `.yaml`, `.csv` or `.xml`.
- Later it answers "what is on page N", or "on pages [a, b, …]", from that cache.

What the model covers:

- **Store and orchestrator.** The output directory is a class `Storage.OutputDir` with a `files` map. The content
  store is `ContentStore.ContentManager` and the orchestrator is `PdfConversion.PdfConverter`. Both act on that
  directory through methods. Each method is proved against a specification function: `Load`/`PlainText` for the
  store, and `Step`/`Run` for the orchestrator. The cache, idempotence, ordering and round-trip properties are
  lemmas about those functions.
- **Exporters.** Each exporter is a module with the source's loops:
  - `ConvertToFormat` fills the page dictionary;
  - the per-page builders (`GetDictForPage`, `RowsForPage`, `PageText`, `ConvertPageToXml`) walk the items;
  - `SaveWithOriginalExtension` writes the consolidated file.

  Each loop is proved equal to a function (`MapPages`, `PageRecord`, `PageRows`, `PageTextOf`, `PageElement`,
  `Consolidated`, …). Lemmas then state what the source promises about those functions.
- **Python dicts** are sequences of (key, value) pairs with distinct keys (`Dicts.Dict`), because every save routine
  depends on insertion order. Assigning to a key replaces the value in place, or appends a new pair.
- **Parsed document.** The document is a `Docs.Document`: pages in order, each holding its items. An item is
  `TextItem`, `TableItem`, `PictureItem` or `OtherItem`, and carries its class name.
- **Foreign calls.** Calls into the parsing engine and pandas appear as data on the document, with `None` meaning
  "the call raises". These are `export_to_markdown`, `export_to_html`, `export_to_dataframe`, `to_string`,
  `to_dict` and `caption_text`.
- **Serialisers.** The serialisers are fields of `Values.Serialisers` that may fail: `json.dumps`/`json.loads`,
  `yaml.dump`/`yaml.safe_load` and `ET.tostring`/`ET.fromstring`.
- **Exceptions** are the `Err` side of `Wrappers.Result`.

## Model

| member | source | states |
|---|---|---|
| ContentStore.ContentPath | content_manager.py:14-18 | an artifact name starts with the stem and a dot, ends in `.json`, and is six characters longer than stem and format together |
| ContentStore.ContentManager.HasContent | content_manager.py:20-25 | the check is for the artifact file only; without that file nothing loads |
| ContentStore.Load | content_manager.py:38-54 | nothing loads without an artifact file, and only a file holding records can load |
| ContentStore.ContentPathInjective | content_manager.py:14-18 | distinct (stem, format) pairs with dot-free format names give distinct artifact names |
| ContentStore.ContentPathClash | content_manager.py:14-18 | with a dot in the format name two different pairs share an artifact (`a.b`+`c` and `a`+`b.c`) |
| ContentStore.ContentManager.constructor | content_manager.py:10-12 | the store works on the given output directory |
| ContentStore.ContentManager.SaveContent | content_manager.py:27-36 | the artifact is overwritten with one record per entry in mapping order, nothing else changes; afterwards the artifact exists and loads back as the same mapping |
| ContentStore.DecodedRecords | content_manager.py:31-50 | decoding the saved records gives back the mapping, same keys, values and order |
| ContentStore.LoadAfterSave | content_manager.py:31-51 | round trip: save then load returns the mapping that was saved |
| ContentStore.SaveKeepsOthers | content_manager.py:31-36 | saving one (stem, format) leaves what every other dot-free pair loads unchanged |
| ContentStore.LoadUndecodable | content_manager.py:52-54 | an artifact that does not decode loads as None, never as a partial mapping |
| ContentStore.ContentManager.LoadContent | content_manager.py:38-54 | loading is `Load`: None when the artifact is absent or undecodable, the decoded mapping otherwise |
| ContentStore.ContentManager.GatherContents | content_manager.py:79-85 | the list loop is `Gather`: concatenation in request order with an early None on the first missing page |
| ContentStore.GatherAppend | content_manager.py:81-85 | gathering `a + b` is gathering `a`, then `b` appended, with a miss in `a` deciding the outcome |
| ContentStore.GatherAllOrNothing | content_manager.py:81-85 | for text contents the gathering is None exactly when some requested page is missing |
| ContentStore.ContentManager.GetPageContentPlainText | content_manager.py:56-88 | retrieval is `PlainText` applied to what `Load` gives for the stem and format |
| ContentStore.PlainTextOfGathered | content_manager.py:79-86 | a page list whose gathering found text returns that text stripped at both ends |
| ContentStore.PlainTextNothingLoaded | content_manager.py:70-72 | a missing or empty mapping gives None for every kind of argument |
| ContentStore.PlainTextRejectsOtherArg | content_manager.py:87-88 | an argument that is neither an int nor a list raises TypeError |
| ContentStore.PlainTextEmptyList | content_manager.py:79-86 | an empty page list gives the empty string |
| ContentStore.PageAfterSave | content_manager.py:74-78 | after a save, a single page reads back its content unstripped, or None when the page is absent |
| ContentStore.PageListAfterSave | content_manager.py:79-86 | after a save of text contents, a page list is None exactly when a page is missing, otherwise the stripped concatenation in request order |
| ContentStore.PlainTextMissingExample | content_manager.py:81-85 | with pages 1, 2, 3 stored, asking for [1, 2, 4] gives None |
| ContentStore.PlainTextOrderExample | content_manager.py:80-86 | asking for [2, 1] concatenates in request order and only strips the ends |
| PdfConversion.Stem | pdf_converter.py:37 | stem and suffix put back together give the name |
| PdfConversion.UrlFilenameStem | pdf_converter.py:31-37 | a URL piece with no suffix gains `.pdf` and keeps itself as stem; one with a suffix is kept as it is |
| PdfConversion.UrlWithoutSuffix | pdf_converter.py:30-37 | a URL ending in a piece with no suffix is saved as that piece + `.pdf`, and the stem is the piece |
| PdfConversion.UrlWithSuffix | pdf_converter.py:30-37 | a URL ending in a piece with a suffix is saved under that piece, and the stem is that piece's stem |
| PdfConversion.UrlExample | pdf_converter.py:30-37 | `https://h/report` gets the stem `report` and is saved as `report.pdf` |
| PdfConversion.LocalPath | pdf_converter.py:34-37 | a local path is used as it is, and its stem is the stem of its last component |
| PdfConversion.ConsolidatedFormatsAreRegistry | pdf_converter.py:44-52 | the list of formats that get a consolidated file is exactly the registry's keys, in order |
| PdfConversion.OutputNameIsNotArtifact | pdf_converter.py:81-85 | a consolidated file never has the name of an artifact of the same stem |
| PdfConversion.OutputNameArtifactClash | pdf_converter.py:81-85 | across stems the names can clash: the consolidated JSON of stem `doc.markdown` is the Markdown artifact of stem `doc` |
| PdfConversion.PdfConverter.constructor | pdf_converter.py:26-52 | the file name and stem are `OutputFilename`/`PdfStem` of the source, the store works on the given directory, and the registry holds the seven formats |
| PdfConversion.CacheHit | pdf_converter.py:72-74 | with an artifact present, the call changes nothing and does not raise, whatever the document and whether or not the name is registered |
| PdfConversion.UnknownFormat | pdf_converter.py:72-77 | an unregistered name raises ValueError, but only when no artifact exists, and changes nothing |
| PdfConversion.FailedExportChangesNothing | pdf_converter.py:79-80 | an export that raises leaves the directory as it was |
| PdfConversion.MissSavesArtifact | pdf_converter.py:79-85 | on a miss the artifact is saved before the consolidated write and loads back as the exported contents even when that write raises; the call raises exactly when the consolidated file cannot be built |
| PdfConversion.StepTouchesTwoFiles | pdf_converter.py:68-85 | a call removes no file and changes none but the artifact and the format's consolidated file |
| PdfConversion.OkLeavesArtifact | pdf_converter.py:72-81 | after a call that did not raise, the artifact exists |
| PdfConversion.StepIdempotent | pdf_converter.py:72-81 | a second call after one that did not raise is a no-op |
| PdfConversion.PageAfterConversion | pdf_converter.py:146-150 | after a fresh conversion, a page reads back as the content its exporter produced |
| PdfConversion.PdfConverter.SaveText | pdf_converter.py:81-85 | the store save followed by the exporter's consolidated save, with the consolidated outcome |
| PdfConversion.PdfConverter.ConvertAndSaveFormat | pdf_converter.py:68-85 | the call's outcome and new directory are `Step`: cache check, registry check, export, store save, consolidated write, in that order |
| PdfConversion.PdfConverter.ConvertAll | pdf_converter.py:135-139 | `Run` over the registry's keys in registry order, stopping at the first call that raises |
| PdfConversion.RunLeavesArtifacts | pdf_converter.py:135-139 | a run that did not raise leaves an artifact for every format of the run and removes no file |
| PdfConversion.RunAllCached | pdf_converter.py:135-139 | with all artifacts present a run is a no-op |
| PdfConversion.RunIdempotent | pdf_converter.py:135-139 | converting everything twice is converting it once |
| PdfConversion.PdfConverter.ConvertToFormat | pdf_converter.py:141-144 | one `Step` for the requested name |
| PdfConversion.PdfConverter.GetPageContent | pdf_converter.py:146-150 | the store's single-page retrieval under this document's stem |
| PdfConversion.ConvertPdf | pdf_converter.py:153-169 | `"all"` runs every format in registry order, any other name runs one step for that name |
| PageMaps.MapPagesShape | format_converters/markdown_converter.py:11-16 | the per-page dictionary loop: it succeeds exactly when every page renders; then it has the document's page keys in order, each holding that page's rendering; otherwise the error is a page's error |
| PageMaps.MapPagesOutcome | format_converters/markdown_converter.py:11-16 | the loop aborts exactly when some page fails to render, and then with the error of a failing page |
| PageMaps.MapPagesEntries | format_converters/markdown_converter.py:11-16 | a complete page dictionary has the document's page keys in document order, and entry i holds page i's rendering |
| PageMaps.MapPagesFails | format_converters/markdown_converter.py:12-16 | the first page that fails to render decides the error of the whole loop |
| PageMaps.MapPagesAgree | format_converters/markdown_converter.py:11-16 | two renderers that agree wherever the first succeeds give the same page dictionary wherever the first one's loop succeeds |
| MarkdownConverter.ConvertToFormat | format_converters/markdown_converter.py:7-16 | one entry per page key in order with that page's Markdown; it raises exactly when a page's Markdown export raises |
| MarkdownConverter.SaveWithOriginalExtension | format_converters/markdown_converter.py:18-26 | writes `{stem}.md` holding the `Consolidated` text and changes no other file |
| MarkdownConverter.ConsolidatedSplit | format_converters/markdown_converter.py:23-26 | nothing is written between, before or after the sections: the file of a mapping is the files of its two halves put together |
| MarkdownConverter.ConsolidatedStartsWithFirstPage | format_converters/markdown_converter.py:23-26 | an empty mapping gives an empty file; otherwise the file starts with the first entry's section |
| TxtConverter.PageText | format_converters/txt_converter.py:14-27 | the per-page loop computes `PageTextOf`, returning the first item error |
| TxtConverter.ConvertToFormat | format_converters/txt_converter.py:8-28 | the page dictionary holds each page's text in order, or the first failure |
| TxtConverter.PageStartsWithBanner | format_converters/txt_converter.py:15-27 | every page text starts with `\n===Page N===\n` |
| TxtConverter.PageFailsIff | format_converters/txt_converter.py:18-25 | there is no per-item recovery: a page fails exactly when one of its tables cannot be exported or rendered, or a picture's caption call is missing or raises |
| TxtConverter.OtherItemsIgnored | format_converters/txt_converter.py:18-25 | items of other kinds leave the page text unchanged |
| TxtConverter.Parts | format_converters/txt_converter.py:35-38 | two parts per entry |
| TxtConverter.PartsAt | format_converters/txt_converter.py:35-38 | entry i gives part 2i, the separator for its page number, and part 2i + 1, its content, in mapping order |
| TxtConverter.SaveWithOriginalExtension | format_converters/txt_converter.py:30-42 | writes `{stem}.txt` holding the joined parts and changes no other file |
| TxtConverter.ConsolidatedAppend | format_converters/txt_converter.py:36-40 | one more entry appends a newline, its 80-`=` separator, a newline and its content |
| TxtConverter.ConsolidatedStartsWithSeparator | format_converters/txt_converter.py:36-40 | a non-empty file starts with the first entry's separator |
| Records.Occurrences | format_converters/json_converter.py:35-43 | the counter kept for a name never exceeds the number of columns seen |
| Records.OccursIff | format_converters/json_converter.py:38-43 | a name has a positive count exactly when it has been seen |
| Records.Renamed | format_converters/json_converter.py:34-44 | renaming keeps the number of columns |
| Records.SeenAfterCounts | format_converters/json_converter.py:36-43 | after the loop has passed some columns, a name has a counter exactly when it occurred among them, and the counter is its number of occurrences |
| Records.RenameColumns | format_converters/json_converter.py:34-44 | the loop with the `seen` counter computes `Renamed` |
| Records.MakeColumnsUnique | format_converters/json_converter.py:32-45 | the columns are renamed by `Renamed` exactly when pandas reports the original labels as not unique; otherwise they are left as they are. |
| Records.RenamedUnique | format_converters/json_converter.py:32 | renaming unique columns would change nothing |
| Records.RenameExample | format_converters/json_converter.py:36-44 | `["A","A","B"]` becomes `["A","A_2","B"]` |
| Records.RenameMayClash | format_converters/json_converter.py:36-44 | `["A","A","A_2"]` becomes `["A","A_2","A_2"]`, which is not unique |
| Records.ItemRecordShape | format_converters/json_converter.py:24-53 | every item record begins with `type` = class name; text adds `text`, table adds `table_data`, a picture adds `caption` holding its caption text, or `None` without `caption_text`; other kinds have only `type`; only a raising caption call fails |
| Records.TableNeverFails | format_converters/json_converter.py:28-48 | a table never makes its page fail; its `table_data` is `to_dict` of the frame with its final columns, and the literal `Table content not extractable` whenever the export or `to_dict` raises |
| Records.PageRecordShape | format_converters/json_converter.py:22-54 | the page record is `{page_number, items}` with one record per item in order, and it fails exactly when a caption call raises |
| Records.GetDictForPage | format_converters/json_converter.py:18-54 | the item loop computes `PageRecord` |
| Records.PageEntries | format_converters/json_converter.py:72-78 | one `{page_number, content}` per mapping entry, in order, with the parsed content; the parser's failure otherwise |
| Records.BuildDocumentRecord | format_converters/json_converter.py:67-78 | the consolidated loop computes `DocumentRecord` |
| Records.DocumentRecordShape | format_converters/json_converter.py:67-78 | the record is `{document_name: stem, pages}` with one entry per mapping entry in order; it fails exactly when a page's content does not parse |
| JsonConverter.GetJsonForPage | format_converters/json_converter.py:56-60 | the page string is `json.dumps` of the page record |
| JsonConverter.ConvertToFormat | format_converters/json_converter.py:9-16 | the page dictionary holds each page's JSON in order, or the first failure |
| JsonConverter.SaveWithOriginalExtension | format_converters/json_converter.py:62-80 | writes `{stem}.json` with the document record when every page parses, and otherwise raises without writing |
| JsonConverter.ConsolidatedOfConverted | format_converters/json_converter.py:56-78 | when `json.loads` undoes `json.dumps`, the consolidated file holds each page's number and page record, in page order |
| YamlConverter.GetYamlForPage | format_converters/yaml_converter.py:57-61 | the page string is `yaml.dump` of the page record |
| YamlConverter.ConvertToFormat | format_converters/yaml_converter.py:9-16 | the page dictionary holds each page's YAML in order, or the first failure |
| YamlConverter.SaveWithOriginalExtension | format_converters/yaml_converter.py:63-81 | writes `{stem}.yaml` with the document record when every page parses, and otherwise raises without writing |
| YamlConverter.ConsolidatedOfConverted | format_converters/yaml_converter.py:57-78 | when `yaml.safe_load` undoes `yaml.dump`, the consolidated file holds each page's number and page record, in page order |
| CsvConverter.PageRows | format_converters/csv_converter.py:18-45 | at most one row per item, every row carrying the current page number |
| CsvConverter.RowForShape | format_converters/csv_converter.py:20-45 | an item yields no row exactly when its caption call raises; otherwise its row has the page number and the item's class name |
| CsvConverter.PageRowsCount | format_converters/csv_converter.py:19-45 | a page has as many rows as items, less the items whose processing raised |
| CsvConverter.PageRowsPresent | format_converters/csv_converter.py:19-45 | the rows are the items' rows, one per item in iteration order, with the raising items dropped |
| CsvConverter.RowsForPage | format_converters/csv_converter.py:18-45 | the item loop computes `PageRows` |
| CsvConverter.ConvertNeverFails | format_converters/csv_converter.py:17-46 | the CSV export never fails |
| CsvConverter.ConvertToFormat | format_converters/csv_converter.py:9-48 | the page dictionary has the document's page keys, each holding its rows |
| CsvConverter.SaveWithOriginalExtension | format_converters/csv_converter.py:50-68 | writes `{stem}.csv` holding the header and every page's lines, and changes no other file |
| CsvConverter.ConsolidatedLines | format_converters/csv_converter.py:59-68 | every line has four fields and every line after the header comes from a stored row |
| CsvConverter.ConsolidatedAppend | format_converters/csv_converter.py:61-68 | one more page appends its rows' lines after the others, in mapping order |
| XmlConverter.ItemElement | format_converters/xml_converter.py:23-37 | an item's child fails only when its picture's caption call raises |
| XmlConverter.ItemElementShape | format_converters/xml_converter.py:23-37 | text, table and picture items give `text`, `table` and `image` children, other kinds none; an `image` has a `caption` attribute exactly when the caption is non-empty; only a raising caption call fails |
| XmlConverter.PageElementShape | format_converters/xml_converter.py:20-37 | the page element is `<page number=N>` with the item children in order, and it fails exactly when an item fails |
| XmlConverter.ConvertPageToXml | format_converters/xml_converter.py:18-39 | the loop builds `PageElement` and serialises it with `ET.tostring` |
| XmlConverter.ConvertToFormat | format_converters/xml_converter.py:9-16 | the page dictionary holds each page's XML in order, or the first failure |
| XmlConverter.ParsedPages | format_converters/xml_converter.py:50-53 | one parsed element per entry, in order, or `fromstring`'s failure |
| XmlConverter.SaveWithOriginalExtension | format_converters/xml_converter.py:41-56 | writes `{stem}.xml` with root `<document name=stem>` when every page parses, and otherwise raises without writing |
| XmlConverter.ConsolidatedOfConverted | format_converters/xml_converter.py:18-53 | when `fromstring` undoes `tostring`, the consolidated root holds the page elements in page order |
| HtmlConverter.CheckAllFailsIff | format_converters/html_converter.py:31-54 | the clean-up as written raises AttributeError exactly when some `ul` in the body meets the pruning test |
| HtmlConverter.SomewhereSplit | format_converters/html_converter.py:30-31 | an element meeting a test lies in a forest exactly when it is the first tree's root, inside the first tree, or in the rest |
| HtmlConverter.CheckAll | format_converters/html_converter.py:31-54 | the as-written clean-up check can only fail with the AttributeError of `getparent` |
| HtmlConverter.EmptyListIsPrunable | format_converters/html_converter.py:49-50 | a `ul` with no text, tail or children meets the source's pruning test, so a forest holding one makes the as-written clean-up raise |
| HtmlConverter.PruneAllClean | format_converters/html_converter.py:43-54 | the corrected bottom-up pruning leaves no empty list at any depth |
| HtmlConverter.NoEmptyListConcat | format_converters/html_converter.py:45-51 | trees that are not empty lists and hold none, followed by a forest holding none, form a forest holding none |
| HtmlConverter.PruneAllNoop | format_converters/html_converter.py:43-54 | pruning a forest that holds no empty list changes nothing |
| HtmlConverter.PruneAllIdempotent | format_converters/html_converter.py:43-54 | pruning twice is pruning once |
| HtmlConverter.PruneAllKeepsText | format_converters/html_converter.py:21-24 | pruning removes no text: the text and tails of the body, in document order, are unchanged |
| HtmlConverter.PruneAllKeepsNonLists | format_converters/html_converter.py:21-24 | pruning removes only `ul` elements: the number of other elements is unchanged |
| HtmlConverter.NonEmptyNestedKept | format_converters/html_converter.py:42-45 | `<ul><ul><li>x</li></ul></ul>` is kept whole, nested list and text included |
| HtmlConverter.FindBody | format_converters/html_converter.py:28 | the first child tagged `body`, or -1 when there is none |
| HtmlConverter.Serialised | format_converters/html_converter.py:34 | one serialisation per body child, in order, or `tostring`'s failure |
| HtmlConverter.ExtractBodyContentAsWritten | format_converters/html_converter.py:26-54 | the as-written extraction returns unparsable input unchanged, and fails only with `getparent`'s AttributeError or a raising `tostring` |
| HtmlConverter.ExtractBodyContent | format_converters/html_converter.py:26-41 | the intended extraction returns unparsable input unchanged, and fails only when `tostring` raises |
| HtmlConverter.BodyText | format_converters/html_converter.py:34-35 | when it fails, `tostring` has raised |
| HtmlConverter.ExtractBodyFallbacks | format_converters/html_converter.py:26-41 | on a parse failure, or without a `body`, the input is returned unchanged |
| HtmlConverter.ExtractBodyStripped | format_converters/html_converter.py:34-35 | the extracted body neither starts nor ends with whitespace |
| HtmlConverter.AsWrittenAgreesUnlessPrunable | format_converters/html_converter.py:26-54 | the as-written extraction raises exactly when the body holds a list meeting the pruning test, and otherwise agrees with the corrected one |
| HtmlConverter.NestedEmptyListExample | format_converters/html_converter.py:31-52 | a body holding `<ul><li></li><ul></ul></ul>` makes the as-written extraction raise; the corrected one drops the inner list |
| HtmlConverter.ConvertToFormat | format_converters/html_converter.py:10-19 | the page dictionary holds each page's extracted body in order, or the first failure (with the intended clean-up; see `ConvertAsWrittenAgrees`) |
| HtmlConverter.RenderPageAgrees | format_converters/html_converter.py:16-54 | a page the as-written exporter renders gets the same body from the intended one; where only the intended one succeeds, the as-written one raises AttributeError |
| HtmlConverter.ConvertAsWrittenAgrees | format_converters/html_converter.py:10-19 | whenever the as-written exporter converts a document, the intended one produces the same page dictionary |
| HtmlConverter.Blocks | format_converters/html_converter.py:85-89 | four lines per entry |
| HtmlConverter.BlocksAt | format_converters/html_converter.py:85-89 | line j of entry i's block is line 4i + j: `<div class="page">`, `<h2>Page N</h2>`, its content and `</div>`, in mapping order |
| HtmlConverter.SaveWithOriginalExtension | format_converters/html_converter.py:56-94 | writes `{stem}.html` holding the joined lines and changes no other file |
| HtmlConverter.LinesContent | format_converters/html_converter.py:85-89 | each entry's content is line 21 + 4i + 2 of the file |
| HtmlConverter.LinesShape | format_converters/html_converter.py:61-91 | 21 head lines, then the page blocks with each content at its place, then `</body>`, `</html>` |
| HtmlConverter.ConsolidatedStartsWithDoctype | format_converters/html_converter.py:61-62 | the file starts with `<!DOCTYPE html>` |

## Left out

- Parsing the PDF (`_initialize_converter`, `converter.convert`) is foreign. The parsed document is an input of the model.
- `export_images` is left out. It is image I/O wrapped in best-effort exception handling. Its `self.source.stem` on a string sends it straight to the outer handler.
- The interactive GUI, `print` logging and the demo blocks under `__main__` are left out.
- Directory creation (`mkdir`) is left out. The output directory is given as a map from file names to files.
- Bytes on disk are abstract:
  - JSON indentation, YAML layout, XML declaration and encoding, and csv quoting are not modelled;
  - a stored artifact is its list of records;
  - a consolidated JSON, YAML or XML file is the value tree that the source serialises;
  - a CSV file is its list of lines.
- The serialisers and pandas are uninterpreted functions that may fail. `str(dataframe)` and `str(col)` are given strings.
- The shape of `doc.iterate_items` and of `caption_text` is taken as given: the items of each page, each of one of four kinds.
- The parsing engine's own exceptions are one `ForeignError` per call, without their Python exception classes.
- `Path` corner cases are not modelled. `Stem`/`Suffix` follow `Path.stem`/`Path.suffix` for names without a trailing `/` or `.` components. Python versions differ on a few edge names, such as `a.` and `..`.
- ContentStore.Load: any file other than an artifact loads as None. The source returns None only for undecodable JSON, and well-formed JSON of another shape raises KeyError or TypeError.
- ContentStore.ContentPathInjective: it holds only for format names without a dot. `ContentPathClash` shows that the general claim is false.
- ContentStore.PageListAfterSave: it is stated for text contents only. For CSV rows the source's `results += rows` raises, and the model turns that into a TypeError.
- Records.Renamed: the result is not claimed unique. `RenameMayClash` shows why.
- XmlConverter.ItemElement: an element text that is None is modelled as the empty string.
- HtmlConverter.CheckAll: the source restarts the clean-up check for each descendant list. The model does it in one postorder pass. The first list that meets the test raises either way, so the outcome is the same.
- HtmlConverter.ConvertToFormat: it uses the intended clean-up. On a page whose body holds a prunable list the source raises AttributeError, but the model returns the pruned body. `ConvertAsWrittenAgrees` shows that the two agree whenever the source's conversion succeeds.
- PdfConversion.PdfConverter.ConvertAll: it inherits the intended HTML clean-up through `Export`. Where the source's HTML export raises on a prunable list, the source saves no HTML artifact and stops before txt, json, yaml, csv and xml. The model saves the pruned pages and carries on. The same holds for `ConvertAndSaveFormat`, `ConvertPdf`, `Step` and `Run` with the name `html`. Everywhere else they agree (`RenderPageAgrees`).
- Records.MakeColumnsUnique: `str(col)` is taken not to raise. Uniqueness comes from pandas on the original labels, not from the `str` labels.
- HtmlConverter.ExtractBodyContent: the successful removal of empty nested lists is the corrected behaviour. The source never removes a list; it raises instead (see Findings). The correction removes, bottom-up, each `ul` left with no text, tail or children. The source's one-level test also matches a `ul` whose only children are lists that are not empty, such as `<ul><ul><li>x</li></ul></ul>`; the correction keeps those, with their text.

## Findings

| source | as written | input that shows it | evidently intended | confidence | as-written member | corrected member |
|---|---|---|---|---|---|---|
| format_converters/html_converter.py:43-54 | when the pruning test holds, `ul_element.getparent()` is called. ElementTree elements have no such method, so the call raises AttributeError, and the `except ET.ParseError` at line 40 does not catch it. The HTML export of that page aborts the whole conversion | a page whose HTML body holds `<ul><li></li><ul></ul></ul>`: the inner `ul` has no text, tail or children | remove, bottom-up, every `ul` that is empty once the lists nested in it are removed, keeping all text and every other element, and return the remaining body | not executed | HtmlConverter.NestedEmptyListExample | HtmlConverter.PruneAllClean |
