/** The conversion orchestrator (`PdfConverter`): it derives the output
    file name and stem from the source, keeps the registry of the seven
    exporters, and converts a format at most once per stem, caching the
    pages in the content store before writing the consolidated file. */
module PdfConversion {
  import opened Wrappers
  import opened Dicts
  import opened Text
  import opened Values
  import opened Docs
  import opened Storage
  import opened ContentStore
  import opened PageMaps
  import MarkdownConverter
  import HtmlConverter
  import TxtConverter
  import JsonConverter
  import YamlConverter
  import CsvConverter
  import XmlConverter

  // ---------------------------------------------------------------------
  // File name and stem
  // ---------------------------------------------------------------------

  /** `Path(p).name`: the text after the last separator. */
  function Name(p: string): (r: string)
    ensures '/' !in r
  {
    AfterLast(p, '/')
  }

  /** `Path(name).suffix`: from the last dot, unless that dot starts or ends the name. */
  function Suffix(name: string): string
  {
    var i := LastIndexOf(name, '.');
    if 0 < i < |name| - 1 then name[i..] else ""
  }

  /** `Path(name).stem`: the name without its suffix. */
  function Stem(name: string): (r: string)
    ensures r + Suffix(name) == name
  {
    var i := LastIndexOf(name, '.');
    if 0 < i < |name| - 1 then name[..i] else name
  }

  /** The file name a URL's last piece is saved under: `.pdf` is added when it has no suffix. */
  function UrlFilename(last: string): string
  {
    if Suffix(last) == "" then last + ".pdf" else last
  }

  /** `self.output_filename`: for a URL, its last piece as `UrlFilename` names it; otherwise the
      source path itself. */
  function OutputFilename(source: string): string
  {
    if HasSubstring(source, "://") then UrlFilename(AfterLast(source, '/')) else source
  }

  /** `self.pdf_stem`. */
  function PdfStem(source: string): string
  {
    Stem(Name(OutputFilename(source)))
  }

  lemma NameOfPlain(s: string)
    requires '/' !in s
    ensures Name(s) == s
  {
  }

  /** A piece without a suffix gains `.pdf`, and its stem is the piece itself; a piece with a
      suffix is kept. */
  lemma UrlFilenameStem(last: string)
    requires '/' !in last
    ensures Suffix(last) != "" ==> UrlFilename(last) == last && Stem(Name(UrlFilename(last))) == Stem(last)
    ensures last != "" && Suffix(last) == "" ==>
              && UrlFilename(last) == last + ".pdf"
              && Suffix(UrlFilename(last)) == ".pdf"
              && Stem(Name(UrlFilename(last))) == last
  {
    NameOfPlain(last);
    if last != "" && Suffix(last) == "" {
      var name := last + ".pdf";
      assert name == last + "." + "pdf";
      LastDot(last, "pdf");
      assert '/' !in name by {
        assert forall k :: 0 <= k < |name| ==> name[k] == if k < |last| then last[k] else ".pdf"[k - |last|];
      }
      NameOfPlain(name);
      assert name[..|last|] == last;
    }
  }

  /** A URL whose last piece has no suffix is saved as that piece plus `.pdf`, and its stem is
      exactly that piece. */
  lemma UrlWithoutSuffix(source: string)
    requires HasSubstring(source, "://")
    requires AfterLast(source, '/') != "" && Suffix(AfterLast(source, '/')) == ""
    ensures OutputFilename(source) == AfterLast(source, '/') + ".pdf"
    ensures Suffix(OutputFilename(source)) == ".pdf"
    ensures PdfStem(source) == AfterLast(source, '/')
  {
    UrlFilenameStem(AfterLast(source, '/'));
  }

  /** A URL whose last piece has a suffix is saved under that piece. */
  lemma UrlWithSuffix(source: string)
    requires HasSubstring(source, "://")
    requires Suffix(AfterLast(source, '/')) != ""
    ensures OutputFilename(source) == AfterLast(source, '/')
    ensures PdfStem(source) == Stem(AfterLast(source, '/'))
  {
    UrlFilenameStem(AfterLast(source, '/'));
  }

  /** A download link without an extension: the file is saved as `report.pdf`, stem `report`. */
  lemma UrlExample()
    ensures PdfStem("https://h/report") == "report"
    ensures OutputFilename("https://h/report") == PdfStem("https://h/report") + ".pdf"
  {
    var u := "https://h/report";
    ExampleIsUrl(u);
    ExampleLastPiece(u);
    ExampleNoSuffix("report");
    UrlWithoutSuffix(u);
  }

  lemma ExampleIsUrl(u: string)
    requires u == "https://h/report"
    ensures HasSubstring(u, "://")
  {
    assert "://" <= u[5..];
    HasSubstringInSuffix(u, "://", 5);
  }

  lemma ExampleLastPiece(u: string)
    requires u == "https://h/report"
    ensures AfterLast(u, '/') == "report"
  {
    assert u[9] == '/' && forall k :: 9 < k < |u| ==> u[k] != '/';
    LastIndexOfAt(u, '/', 9);
  }

  lemma ExampleNoSuffix(last: string)
    requires last == "report"
    ensures Suffix(last) == ""
  {
    assert forall k :: 0 <= k < |last| ==> last[k] != '.';
  }

  /** A local path is used as it is, and its stem is that of its final component. */
  lemma LocalPath(source: string)
    requires !HasSubstring(source, "://")
    ensures OutputFilename(source) == source
    ensures PdfStem(source) == Stem(Name(source))
  {
  }

  // ---------------------------------------------------------------------
  // The registry
  // ---------------------------------------------------------------------

  datatype Format = Markdown | Html | Txt | Json | Yaml | Csv | Xml

  /** `self.format_converters`, in insertion order. */
  const Registry: Dict<string, Format> :=
    [("markdown", Markdown), ("html", Html), ("txt", Txt), ("json", Json), ("yaml", Yaml), ("csv", Csv), ("xml", Xml)]

  /** The formats that also get a file with their own extension. */
  const ConsolidatedFormats: seq<string> := ["markdown", "html", "txt", "json", "yaml", "csv", "xml"]

  /** Every registered format gets its consolidated file, and no other name does. */
  lemma ConsolidatedFormatsAreRegistry()
    ensures ConsolidatedFormats == Keys(Registry)
    ensures forall name :: name in ConsolidatedFormats <==> Get(Registry, name).Some?
  {
    forall name
      ensures name in ConsolidatedFormats <==> Get(Registry, name).Some?
    {
      assert name in ConsolidatedFormats <==> name in Keys(Registry);
    }
  }

  /** The consolidated file name of a format. */
  function OutputName(format: Format, stem: string): string
  {
    match format
    case Markdown => MarkdownConverter.OutputName(stem)
    case Html => HtmlConverter.OutputName(stem)
    case Txt => TxtConverter.OutputName(stem)
    case Json => JsonConverter.OutputName(stem)
    case Yaml => YamlConverter.OutputName(stem)
    case Csv => CsvConverter.OutputName(stem)
    case Xml => XmlConverter.OutputName(stem)
  }

  /** A consolidated file never overwrites an artifact of the same stem. */
  lemma OutputNameIsNotArtifact(format: Format, stem: string, name: string)
    ensures OutputName(format, stem) != ContentPath(stem, name)
  {
    assert |OutputName(format, stem)| <= |stem| + 5 < |ContentPath(stem, name)|;
  }

  /** Across stems the names do clash: the consolidated JSON of `doc.markdown.pdf` is the Markdown
      artifact of `doc.pdf` when both are converted into one directory. */
  lemma OutputNameArtifactClash()
    ensures OutputName(Json, "doc.markdown") == ContentPath("doc", "markdown")
  {
    assert OutputName(Json, "doc.markdown") == "doc.markdown" + ".json";
  }

  function AsText(s: string): PageContent
  {
    TextContent(s)
  }

  function AsRows(rows: seq<CsvRow>): PageContent
  {
    RowsContent(rows)
  }

  /** What an exporter produces: the page contents to cache, and the consolidated file. */
  datatype Exported = Exported(contents: Dict<int, PageContent>, consolidated: Result<File>)

  /** `convert_to_format` of the format's exporter, and what its `save_with_original_extension`
      then writes. */
  function Export(format: Format, doc: Document, ser: Serialisers, stem: string): Result<Exported>
  {
    match format
    case Markdown =>
      var d :- MapPages(ser, doc.pages, MarkdownConverter.RenderPage);
      Ok(Exported(MapValues(d, AsText), Ok(TextFile(MarkdownConverter.Consolidated(d)))))
    case Html =>
      var d :- MapPages(ser, doc.pages, HtmlConverter.RenderPage);
      Ok(Exported(MapValues(d, AsText), Ok(TextFile(HtmlConverter.Consolidated(d)))))
    case Txt =>
      var d :- MapPages(ser, doc.pages, TxtConverter.RenderPage);
      Ok(Exported(MapValues(d, AsText), Ok(TextFile(TxtConverter.Consolidated(d)))))
    case Json =>
      var d :- MapPages(ser, doc.pages, JsonConverter.RenderPage);
      Ok(Exported(MapValues(d, AsText), JsonConverter.ConsolidatedFile(ser, stem, d)))
    case Yaml =>
      var d :- MapPages(ser, doc.pages, YamlConverter.RenderPage);
      Ok(Exported(MapValues(d, AsText), YamlConverter.ConsolidatedFile(ser, stem, d)))
    case Csv =>
      var d :- MapPages(ser, doc.pages, CsvConverter.RenderPage);
      Ok(Exported(MapValues(d, AsRows), Ok(CsvFile(CsvConverter.Consolidated(d)))))
    case Xml =>
      var d :- MapPages(ser, doc.pages, XmlConverter.RenderPage);
      Ok(Exported(MapValues(d, AsText), XmlConverter.ConsolidatedFile(ser, stem, d)))
  }

  // ---------------------------------------------------------------------
  // One conversion step and a run of them
  // ---------------------------------------------------------------------

  /** `_convert_and_save_format(name)` on the directory `files`: the outcome and the new directory.
      In order: an existing artifact ends the call; an unknown name raises; a failing export
      changes nothing; otherwise the artifact is saved and then the consolidated file written. */
  function Step(files: map<string, File>, stem: string, name: string, doc: Document, ser: Serialisers)
    : (Result<()>, map<string, File>)
  {
    if ContentPath(stem, name) in files then (Ok(()), files)
    else
      match Get(Registry, name)
      case None => (Err(ValueError("Unsupported output format: " + name)), files)
      case Some(format) =>
        match Export(format, doc, ser, stem)
        case Err(e) => (Err(e), files)
        case Ok(x) =>
          var saved := files[ContentPath(stem, name) := Artifact(Records(x.contents))];
          if name !in ConsolidatedFormats then (Ok(()), saved)
          else match x.consolidated
            case Err(e) => (Err(e), saved)
            case Ok(file) => (Ok(()), saved[OutputName(format, stem) := file])
  }

  /** The steps for `names` in order, stopping at the first that raises. */
  function Run(files: map<string, File>, stem: string, names: seq<string>, doc: Document, ser: Serialisers)
    : (Result<()>, map<string, File>)
    decreases |names|
  {
    if names == [] then (Ok(()), files)
    else
      var (r, next) := Step(files, stem, names[0], doc, ser);
      if r.Err? then (r, next) else Run(next, stem, names[1..], doc, ser)
  }

  /** One step of a run. */
  lemma RunCons(files: map<string, File>, stem: string, names: seq<string>, doc: Document, ser: Serialisers)
    requires names != []
    ensures var (r, next) := Step(files, stem, names[0], doc, ser);
            Run(files, stem, names, doc, ser) == if r.Err? then (r, next) else Run(next, stem, names[1..], doc, ser)
  {
  }

  /** Cache hit: an existing artifact makes the call a no-op, whatever the document holds and
      whether or not the name is registered. */
  lemma CacheHit(files: map<string, File>, stem: string, name: string, doc: Document, ser: Serialisers)
    requires ContentPath(stem, name) in files
    ensures Step(files, stem, name, doc, ser) == (Ok(()), files)
  {
  }

  /** The registry is consulted only on a miss: an unknown name raises ValueError, and leaves the
      directory as it was. */
  lemma UnknownFormat(files: map<string, File>, stem: string, name: string, doc: Document, ser: Serialisers)
    requires ContentPath(stem, name) !in files
    requires name !in Keys(Registry)
    ensures Step(files, stem, name, doc, ser) == (Err(ValueError("Unsupported output format: " + name)), files)
  {
  }

  /** On a miss with a successful export the artifact is saved whether or not the consolidated
      write fails, it loads back as the exported contents, and the consolidated file is written
      exactly when it could be built. */
  lemma MissSavesArtifact(files: map<string, File>, stem: string, name: string, doc: Document, ser: Serialisers)
    requires ContentPath(stem, name) !in files
    requires Get(Registry, name).Some?
    requires Export(Get(Registry, name).value, doc, ser, stem).Ok?
    ensures var x := Export(Get(Registry, name).value, doc, ser, stem).value;
            var (r, after) := Step(files, stem, name, doc, ser);
            && Load(after, stem, name) == Some(x.contents)
            && (r.Ok? <==> x.consolidated.Ok?)
            && (x.consolidated.Ok? ==> after[OutputName(Get(Registry, name).value, stem)] == x.consolidated.value)
  {
    var format := Get(Registry, name).value;
    var x := Export(format, doc, ser, stem).value;
    ConsolidatedFormatsAreRegistry();
    OutputNameIsNotArtifact(format, stem, name);
    LoadAfterSave(files, stem, name, x.contents);
  }

  /** A failing export leaves the directory as it was. */
  lemma FailedExportChangesNothing(files: map<string, File>, stem: string, name: string, doc: Document, ser: Serialisers)
    requires ContentPath(stem, name) !in files
    requires Get(Registry, name).Some?
    requires Export(Get(Registry, name).value, doc, ser, stem).Err?
    ensures Step(files, stem, name, doc, ser) == (Err(Export(Get(Registry, name).value, doc, ser, stem).error), files)
  {
  }

  /** A step never removes a file, and changes none but the artifact and the consolidated file. */
  lemma StepTouchesTwoFiles(files: map<string, File>, stem: string, name: string, doc: Document, ser: Serialisers)
    ensures var after := Step(files, stem, name, doc, ser).1;
            && files.Keys <= after.Keys
            && forall k :: k in after && k != ContentPath(stem, name)
                 && (Get(Registry, name).None? || k != OutputName(Get(Registry, name).value, stem))
                 ==> k in files && after[k] == files[k]
  {
  }

  /** After any call that did not raise, the artifact exists. */
  lemma OkLeavesArtifact(files: map<string, File>, stem: string, name: string, doc: Document, ser: Serialisers)
    requires Step(files, stem, name, doc, ser).0.Ok?
    ensures ContentPath(stem, name) in Step(files, stem, name, doc, ser).1
  {
    if ContentPath(stem, name) !in files {
      var format := Get(Registry, name).value;
      OutputNameIsNotArtifact(format, stem, name);
    }
  }

  /** Idempotence: repeating a call that did not raise changes nothing. */
  lemma StepIdempotent(files: map<string, File>, stem: string, name: string, doc: Document, ser: Serialisers)
    requires Step(files, stem, name, doc, ser).0.Ok?
    ensures var after := Step(files, stem, name, doc, ser).1;
            Step(after, stem, name, doc, ser) == (Ok(()), after)
  {
    OkLeavesArtifact(files, stem, name, doc, ser);
  }

  /** A run that did not raise left an artifact for every name it was given. */
  lemma {:induction false} RunLeavesArtifacts(files: map<string, File>, stem: string, names: seq<string>,
                                              doc: Document, ser: Serialisers)
    requires Run(files, stem, names, doc, ser).0.Ok?
    ensures forall k :: 0 <= k < |names| ==> ContentPath(stem, names[k]) in Run(files, stem, names, doc, ser).1
    ensures files.Keys <= Run(files, stem, names, doc, ser).1.Keys
    decreases |names|
  {
    if names != [] {
      var next := Step(files, stem, names[0], doc, ser).1;
      OkLeavesArtifact(files, stem, names[0], doc, ser);
      StepTouchesTwoFiles(files, stem, names[0], doc, ser);
      RunLeavesArtifacts(next, stem, names[1..], doc, ser);
      forall k | 0 <= k < |names|
        ensures ContentPath(stem, names[k]) in Run(files, stem, names, doc, ser).1
      {
        if k > 0 {
          assert names[k] == names[1..][k - 1];
        }
      }
    }
  }

  /** With every artifact present a run is a no-op. */
  lemma {:induction false} RunAllCached(files: map<string, File>, stem: string, names: seq<string>,
                                        doc: Document, ser: Serialisers)
    requires forall k :: 0 <= k < |names| ==> ContentPath(stem, names[k]) in files
    ensures Run(files, stem, names, doc, ser) == (Ok(()), files)
    decreases |names|
  {
    if names != [] {
      assert ContentPath(stem, names[0]) in files;
      forall k | 0 <= k < |names[1..]|
        ensures ContentPath(stem, names[1..][k]) in files
      {
        assert names[1..][k] == names[k + 1];
      }
      RunAllCached(files, stem, names[1..], doc, ser);
    }
  }

  /** Converting everything twice is converting it once. */
  lemma RunIdempotent(files: map<string, File>, stem: string, names: seq<string>, doc: Document, ser: Serialisers)
    requires Run(files, stem, names, doc, ser).0.Ok?
    ensures var after := Run(files, stem, names, doc, ser).1;
            Run(after, stem, names, doc, ser) == (Ok(()), after)
  {
    RunLeavesArtifacts(files, stem, names, doc, ser);
    RunAllCached(Run(files, stem, names, doc, ser).1, stem, names, doc, ser);
  }

  /** Reading a page back after a fresh conversion gives the page's exported content. */
  lemma PageAfterConversion(files: map<string, File>, stem: string, name: string, doc: Document, ser: Serialisers, n: int)
    requires ContentPath(stem, name) !in files
    requires Get(Registry, name).Some?
    requires Export(Get(Registry, name).value, doc, ser, stem).Ok?
    requires Export(Get(Registry, name).value, doc, ser, stem).value.contents != []
    ensures var x := Export(Get(Registry, name).value, doc, ser, stem).value;
            PlainText(Load(Step(files, stem, name, doc, ser).1, stem, name), Page(n)) == Ok(Get(x.contents, n))
  {
    MissSavesArtifact(files, stem, name, doc, ser);
  }

  // ---------------------------------------------------------------------
  // The converter object
  // ---------------------------------------------------------------------

  class PdfConverter {
    const source: string
    const outputFilename: string
    const pdfStem: string
    const store: ContentManager
    const doc: Document
    const ser: Serialisers
    const formatConverters: Dict<string, Format> := Registry

    /** `PdfConverter(source, output_dir)`; `doc` is what the parsing engine made of `source`. */
    constructor (source: string, dir: OutputDir, doc: Document, ser: Serialisers)
      ensures this.source == source && outputFilename == OutputFilename(source) && pdfStem == PdfStem(source)
      ensures store.dir == dir && this.doc == doc && this.ser == ser
    {
      this.source := source;
      var filename := source;
      if HasSubstring(source, "://") {
        filename := AfterLast(source, '/');
        if Suffix(filename) == "" {
          filename := filename + ".pdf";
        }
      }
      outputFilename := filename;
      pdfStem := Stem(Name(filename));
      store := new ContentManager(dir);
      this.doc := doc;
      this.ser := ser;
    }

    /** `self.content_manager.save_content` followed by the exporter's consolidated save. */
    method SaveText(name: string, format: Format, d: Dict<int, string>) returns (r: Result<()>)
      requires format != Csv
      requires Export(format, doc, ser, pdfStem).Ok?
      requires Export(format, doc, ser, pdfStem).value.contents == MapValues(d, AsText)
      requires format == Markdown ==> d == MapPages(ser, doc.pages, MarkdownConverter.RenderPage).value
      requires format == Html ==> d == MapPages(ser, doc.pages, HtmlConverter.RenderPage).value
      requires format == Txt ==> d == MapPages(ser, doc.pages, TxtConverter.RenderPage).value
      requires format == Json ==> d == MapPages(ser, doc.pages, JsonConverter.RenderPage).value
      requires format == Yaml ==> d == MapPages(ser, doc.pages, YamlConverter.RenderPage).value
      requires format == Xml ==> d == MapPages(ser, doc.pages, XmlConverter.RenderPage).value
      requires name in ConsolidatedFormats
      modifies store.dir
      ensures var x := Export(format, doc, ser, pdfStem).value;
              var saved := old(store.dir.files)[ContentPath(pdfStem, name) := Artifact(Records(x.contents))];
              match x.consolidated
              case Err(e) => r == Err(e) && store.dir.files == saved
              case Ok(file) => r == Ok(()) && store.dir.files == saved[OutputName(format, pdfStem) := file]
    {
      store.SaveContent(pdfStem, name, MapValues(d, AsText));
      r := Ok(());
      match format {
        case Markdown => MarkdownConverter.SaveWithOriginalExtension(store.dir, pdfStem, d);
        case Html => HtmlConverter.SaveWithOriginalExtension(store.dir, pdfStem, d);
        case Txt => TxtConverter.SaveWithOriginalExtension(store.dir, pdfStem, d);
        case Json => r := JsonConverter.SaveWithOriginalExtension(store.dir, ser, pdfStem, d);
        case Yaml => r := YamlConverter.SaveWithOriginalExtension(store.dir, ser, pdfStem, d);
        case Xml => r := XmlConverter.SaveWithOriginalExtension(store.dir, ser, pdfStem, d);
      }
    }

    /** `_convert_and_save_format`. */
    method ConvertAndSaveFormat(name: string) returns (r: Result<()>)
      modifies store.dir
      ensures (r, store.dir.files) == Step(old(store.dir.files), pdfStem, name, doc, ser)
    {
      if store.HasContent(pdfStem, name) {
        return Ok(());
      }
      var format := Get(formatConverters, name);
      if format.None? {
        return Err(ValueError("Unsupported output format: " + name));
      }
      ConsolidatedFormatsAreRegistry();
      match format.value {
        case Csv =>
          var d := CsvConverter.ConvertToFormat(doc, ser);
          store.SaveContent(pdfStem, name, MapValues(d, AsRows));
          CsvConverter.SaveWithOriginalExtension(store.dir, pdfStem, d);
          r := Ok(());
        case Markdown =>
          var d := MarkdownConverter.ConvertToFormat(doc, ser);
          if d.Err? { return Err(d.error); }
          r := SaveText(name, Markdown, d.value);
        case Html =>
          var d := HtmlConverter.ConvertToFormat(doc, ser);
          if d.Err? { return Err(d.error); }
          r := SaveText(name, Html, d.value);
        case Txt =>
          var d := TxtConverter.ConvertToFormat(doc, ser);
          if d.Err? { return Err(d.error); }
          r := SaveText(name, Txt, d.value);
        case Json =>
          var d := JsonConverter.ConvertToFormat(doc, ser);
          if d.Err? { return Err(d.error); }
          r := SaveText(name, Json, d.value);
        case Yaml =>
          var d := YamlConverter.ConvertToFormat(doc, ser);
          if d.Err? { return Err(d.error); }
          r := SaveText(name, Yaml, d.value);
        case Xml =>
          var d := XmlConverter.ConvertToFormat(doc, ser);
          if d.Err? { return Err(d.error); }
          r := SaveText(name, Xml, d.value);
      }
    }

    /** `convert_all`: every registered format once, in registry order, stopping at the first
        that raises. */
    method ConvertAll() returns (r: Result<()>)
      modifies store.dir
      ensures (r, store.dir.files) == Run(old(store.dir.files), pdfStem, Keys(Registry), doc, ser)
    {
      var names := Keys(formatConverters);
      for i := 0 to |names|
        invariant Run(old(store.dir.files), pdfStem, names, doc, ser) == Run(store.dir.files, pdfStem, names[i..], doc, ser)
      {
        assert names[i..][1..] == names[i + 1..];
        RunCons(store.dir.files, pdfStem, names[i..], doc, ser);
        r := ConvertAndSaveFormat(names[i]);
        if r.Err? {
          return r;
        }
      }
      return Ok(());
    }

    /** `convert_to_format`. */
    method ConvertToFormat(outputFormat: string) returns (r: Result<()>)
      modifies store.dir
      ensures (r, store.dir.files) == Step(old(store.dir.files), pdfStem, outputFormat, doc, ser)
    {
      r := ConvertAndSaveFormat(outputFormat);
    }

    /** `get_page_content`: the store's single-page retrieval under this document's stem. */
    method GetPageContent(outputFormat: string, page: int) returns (r: Result<Option<PageContent>>)
      ensures r == PlainText(Load(store.dir.files, pdfStem, outputFormat), Page(page))
    {
      r := store.GetPageContentPlainText(pdfStem, outputFormat, Page(page));
    }
  }

  /** `convert_pdf`: everything for `"all"`, otherwise the one format asked for. */
  method ConvertPdf(source: string, dir: OutputDir, doc: Document, ser: Serialisers, outputFormat: string)
    returns (r: Result<()>)
    modifies dir
    ensures outputFormat == "all" ==> (r, dir.files) == Run(old(dir.files), PdfStem(source), Keys(Registry), doc, ser)
    ensures outputFormat != "all" ==> (r, dir.files) == Step(old(dir.files), PdfStem(source), outputFormat, doc, ser)
  {
    var converter := new PdfConverter(source, dir, doc, ser);
    if outputFormat == "all" {
      r := converter.ConvertAll();
    } else {
      r := converter.ConvertToFormat(outputFormat);
    }
  }
}
