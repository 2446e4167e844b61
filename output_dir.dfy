/** The output directory shared by the page content store and the
    exporters' consolidated files: a map from file name to what the file
    holds. */
module Storage {
  import opened Values

  /** What one page holds in a stored artifact: a string for six formats,
      a list of row records for CSV. */
  datatype PageContent = TextContent(text: string) | RowsContent(rows: seq<CsvRow>)

  /** One `{"page": ..., "content": ...}` element of an artifact's JSON array. */
  datatype Record = Record(page: int, content: PageContent)

  /** The contents of a file in the output directory. */
  datatype File =
    | Artifact(records: seq<Record>)   // a JSON array of page records that json.load decodes
    | Undecodable                      // a file on which json.load raises JSONDecodeError
    | TextFile(text: string)           // a consolidated .md, .html or .txt file
    | DataFile(data: Value)            // a consolidated .json or .yaml file, before serialisation
    | CsvFile(rows: seq<seq<string>>)  // a consolidated .csv file, before quoting
    | XmlFile(root: Element)           // a consolidated .xml file, before serialisation

  class OutputDir {
    var files: map<string, File>

    /** The directory as found on disk; it may already hold earlier results. */
    constructor (initial: map<string, File>)
      ensures files == initial
    {
      files := initial;
    }

    /** `open(name, 'w')` followed by writing `file`: any earlier file of that name is replaced. */
    method Write(name: string, file: File)
      modifies this
      ensures files == old(files)[name := file]
    {
      files := files[name := file];
    }
  }
}
