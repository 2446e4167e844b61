/** The structures the converters build and the collaborators they call.
    Python objects handed to `json.dumps` / `yaml.dump` are `Value`s,
    `xml.etree.ElementTree` elements are `Element`s, and the serialisers
    themselves are functions supplied from outside: `None` means the call
    raised. */
module Values {
  import opened Wrappers

  /** A Python object of the kinds the JSON and YAML exporters build. */
  datatype Value =
    | Null
    | Str(s: string)
    | Int(i: int)
    | List(elems: seq<Value>)
    | Object(fields: seq<(string, Value)>)   // a dict, in insertion order

  /** An `xml.etree.ElementTree.Element`; an absent `text` or `tail` is "". */
  datatype Element = Element(
    tag: string,
    attributes: seq<(string, string)>,
    text: string,
    tail: string,
    children: seq<Element>)

  /** One row of the CSV exporter's per-page data. */
  datatype CsvRow = CsvRow(pageNumber: int, elementType: string, content: string, additionalInfo: string)

  /** The serialisers and parsers the exporters call; they are not part of this model. */
  datatype Serialisers = Serialisers(
    jsonDumps: Value -> Option<string>,       // json.dumps(..., indent=2)
    jsonLoads: string -> Option<Value>,       // json.loads
    yamlDump: Value -> Option<string>,        // yaml.dump(..., sort_keys=False)
    yamlLoad: string -> Option<Value>,        // yaml.safe_load
    xmlToString: Element -> Option<string>,   // ET.tostring(..., encoding="unicode")
    xmlFromString: string -> Option<Element>) // ET.fromstring; None is ET.ParseError
}

/** The parsed document handed over by the parsing engine. Everything the
    engine computes on request is recorded here as an `Option`, `None`
    meaning that the request raises. */
module Docs {
  import opened Wrappers
  import opened Dicts
  import opened Values

  /** What `item.caption_text(doc)` does for a picture. */
  datatype Caption =
    | NoCaptionText            // the item has no `caption_text` attribute
    | CaptionRaises            // calling it raises
    | CaptionText(text: string)

  /** The pandas DataFrame `export_to_dataframe()` returns, seen through the calls made on it. */
  datatype Frame = Frame(
    columns: seq<string>,                     // the column labels, as `str(col)` gives them
    columnsUnique: bool,                      // df.columns.is_unique, judged on the labels themselves
    toText: Option<string>,                   // df.to_string()
    repr: Option<string>,                     // str(df)
    toDict: Option<seq<string>> -> Option<Value>)  // df.to_dict(): None with the original columns,
                                                   // Some(c) once df.columns has been set to c

  /** A content item; `className` is `item.__class__.__name__`. */
  datatype Item =
    | TextItem(className: string, text: string)
    | TableItem(className: string, frame: Option<Frame>)   // None: export_to_dataframe() raises
    | PictureItem(className: string, caption: Caption)
    | OtherItem(className: string)

  /** One page: the items `doc.iterate_items(page_no=N)` yields, in order, and the page's
      markdown and HTML renderings (`export_to_markdown(page_no=N)`, `export_to_html(page_no=N)`). */
  datatype PageData = PageData(items: seq<Item>, markdown: Option<string>, html: Option<string>)

  /** `doc.pages`, keyed by page number in the engine's order. */
  datatype Document = Document(pages: Dict<int, PageData>)
}
