/** The page content store (`ContentManager`): one JSON artifact
    `{stem}.{format}.json` per document and format in the output directory,
    holding the page records of one conversion. */
module ContentStore {
  import opened Wrappers
  import opened Dicts
  import opened Text
  import opened Storage

  /** The artifact's file name, `f"{pdf_stem}.{format_name}.json"`. */
  function ContentPath(stem: string, format: string): (p: string)
    ensures stem + "." <= p
    ensures |p| == |stem| + |format| + 6 && p[|p| - 5..] == ".json"
  {
    stem + "." + format + ".json"
  }

  /** Format names without a dot give every (stem, format) pair its own artifact. */
  lemma ContentPathInjective(s1: string, f1: string, s2: string, f2: string)
    requires '.' !in f1 && '.' !in f2
    requires ContentPath(s1, f1) == ContentPath(s2, f2)
    ensures s1 == s2 && f1 == f2
  {
    var a, b := s1 + "." + f1, s2 + "." + f2;
    assert a == ContentPath(s1, f1)[..|a|];
    assert b == ContentPath(s2, f2)[..|b|];
    assert |a| == |b|;
    LastDot(s1, f1);
    LastDot(s2, f2);
    assert a == b;
    assert f1 == a[|a| - |f1|..] && f2 == b[|b| - |f2|..];
    assert s1 == a[..|s1|] && s2 == b[..|s2|];
  }

  /** In `x.f` with a dot-free `f`, the last dot is the one after `x`. */
  lemma LastDot(x: string, f: string)
    requires '.' !in f
    ensures LastIndexOf(x + "." + f, '.') == |x|
  {
    var a := x + ".";
    assert a[|a| - 1] == '.';
    LastIndexOfSkips(a, f, '.');
  }

  /** A format name with a dot can share an artifact with another pair. */
  lemma ContentPathClash()
    ensures ContentPath("a.b", "c") == ContentPath("a", "b.c")
  {
  }

  /** The array `save_content` writes: one record per mapping entry, in iteration order. */
  function Records(pages: seq<(int, PageContent)>): seq<Record>
  {
    seq(|pages|, i requires 0 <= i < |pages| => Record(pages[i].0, pages[i].1))
  }

  /** The mapping `load_content` rebuilds: `page_contents[item['page']] = item['content']` per record. */
  function Decoded(records: seq<Record>): Dict<int, PageContent>
  {
    if records == [] then []
    else
      var last := records[|records| - 1];
      Put(Decoded(records[..|records| - 1]), last.page, last.content)
  }

  /** Decoding what was saved gives back the mapping: same keys, same order, same contents. */
  lemma {:induction false} DecodedRecords(pages: Dict<int, PageContent>)
    ensures Decoded(Records(pages)) == pages
  {
    if pages != [] {
      var n := |pages|;
      PrefixDistinct(pages, n - 1);
      var front: Dict<int, PageContent> := pages[..n - 1];
      assert Records(pages)[..n - 1] == Records(front);
      DecodedRecords(front);
      forall k | 0 <= k < n - 1
        ensures Keys(front)[k] != pages[n - 1].0
      {
        SameKey(pages, k, n - 1);
      }
      assert front + [pages[n - 1]] == pages;
    }
  }

  /** What `load_content` returns for the directory `files`. */
  function Load(files: map<string, File>, stem: string, format: string): (r: Option<Dict<int, PageContent>>)
    ensures ContentPath(stem, format) !in files ==> r.None?
    ensures r.Some? ==> files[ContentPath(stem, format)].Artifact?
  {
    var path := ContentPath(stem, format);
    if path !in files then None
    else match files[path]
      case Artifact(records) => Some(Decoded(records))
      case _ => None
  }

  /** Round trip: loading after saving gives back exactly the saved mapping. */
  lemma LoadAfterSave(files: map<string, File>, stem: string, format: string, pages: Dict<int, PageContent>)
    ensures Load(files[ContentPath(stem, format) := Artifact(Records(pages))], stem, format) == Some(pages)
  {
    DecodedRecords(pages);
  }

  /** Saving one pair leaves what every other (dot-free) pair loads unchanged. */
  lemma SaveKeepsOthers(files: map<string, File>, stem: string, format: string, pages: Dict<int, PageContent>,
                        stem': string, format': string)
    requires '.' !in format && '.' !in format'
    requires (stem', format') != (stem, format)
    ensures Load(files[ContentPath(stem, format) := Artifact(Records(pages))], stem', format') == Load(files, stem', format')
  {
    if ContentPath(stem, format) == ContentPath(stem', format') {
      ContentPathInjective(stem, format, stem', format');
    }
  }

  /** A cache entry that does not decode loads as nothing, never as part of a mapping. */
  lemma LoadUndecodable(files: map<string, File>, stem: string, format: string)
    requires ContentPath(stem, format) in files && files[ContentPath(stem, format)] == Undecodable
    ensures Load(files, stem, format) == None
  {
  }

  /** The `page` argument of `get_page_content_plain_text`. */
  datatype PageArg =
    | Page(n: int)            // an int
    | PageList(ns: seq<int>)  // a list of ints
    | OtherArg                // anything else

  /** `p` in front of the text a gathering found; failures and misses unchanged. */
  function Prefixed(p: string, r: Result<Option<string>>): Result<Option<string>>
  {
    match r
    case Ok(Some(t)) => Ok(Some(p + t))
    case _ => r
  }

  /** The contents of the pages `ns` concatenated in request order; `Ok(None)` as soon as one page is
      missing; a TypeError when a list-valued (CSV) content is met first. */
  function Gather(d: Dict<int, PageContent>, ns: seq<int>): Result<Option<string>>
  {
    if ns == [] then Ok(Some(""))
    else
      var content: Option<PageContent> := Get(d, ns[0]);
      if content.None? then Ok(None)
      else match content.value
        case RowsContent(_) => Err(TypeError("can only concatenate str (not \"list\") to str"))
        case TextContent(s) => Prefixed(s, Gather(d, ns[1..]))
  }

  /** What `get_page_content_plain_text` returns for the loaded mapping. */
  function PlainText(loaded: Option<Dict<int, PageContent>>, arg: PageArg): Result<Option<PageContent>>
  {
    if loaded.None? || loaded.value == [] then Ok(None)
    else match arg
      case Page(n) => Ok(Get(loaded.value, n))
      case PageList(ns) =>
        (match Gather(loaded.value, ns)
         case Ok(Some(s)) => Ok(Some(TextContent(Strip(s))))
         case Ok(None) => Ok(None)
         case Err(e) => Err(e))
      case OtherArg => Err(TypeError("page must be an int or a list of ints"))
  }

  /** Gathering a list is gathering its parts one after the other (request order, duplicates repeated). */
  lemma {:induction false} GatherAppend(d: Dict<int, PageContent>, a: seq<int>, b: seq<int>)
    ensures Gather(d, a + b) == match Gather(d, a) case Ok(Some(x)) => Prefixed(x, Gather(d, b)) case r => r
  {
    if a != [] {
      var ab := a + b;
      assert ab != [] && ab[0] == a[0] && ab[1..] == a[1..] + b;
      GatherAppend(d, a[1..], b);
      var content := Get(d, a[0]);
      if content.Some? && content.value.TextContent? {
        var s := content.value.text;
        match Gather(d, a[1..]) {
          case Ok(Some(x)) =>
            match Gather(d, b) {
              case Ok(Some(t)) => assert s + (x + t) == (s + x) + t;
              case _ =>
            }
          case _ =>
        }
      }
    } else {
      assert a + b == b;
      match Gather(d, b) {
        case Ok(Some(t)) => assert "" + t == t;
        case _ =>
      }
    }
  }

  predicate AllText(d: Dict<int, PageContent>) {
    forall i :: 0 <= i < |d| ==> d[i].1.TextContent?
  }

  /** All or nothing: for string contents the gathering fails exactly when some requested page is missing. */
  lemma {:induction false} GatherAllOrNothing(d: Dict<int, PageContent>, ns: seq<int>)
    requires AllText(d)
    ensures Gather(d, ns).Ok?
    ensures Gather(d, ns).value.None? <==> exists k :: 0 <= k < |ns| && ns[k] !in Keys(d)
  {
    if ns != [] {
      GatherAllOrNothing(d, ns[1..]);
      var g := Get(d, ns[0]);
      if g.Some? {
        var i :| 0 <= i < |d| && d[i] == (ns[0], g.value);
        assert d[i].1.TextContent?;
        if exists k :: 0 <= k < |ns[1..]| && ns[1..][k] !in Keys(d) {
          var k :| 0 <= k < |ns[1..]| && ns[1..][k] !in Keys(d);
          assert ns[k + 1] !in Keys(d);
        }
        if exists k :: 0 <= k < |ns| && ns[k] !in Keys(d) {
          var k :| 0 <= k < |ns| && ns[k] !in Keys(d);
          assert k > 0 && ns[1..][k - 1] !in Keys(d);
        }
      }
    }
  }

  /** A mapping that failed to load, or loaded empty (`if not page_contents`), yields None for
      every argument, even one that is neither an int nor a list. */
  lemma PlainTextNothingLoaded(loaded: Option<Dict<int, PageContent>>, arg: PageArg)
    requires loaded.None? || loaded.value == []
    ensures PlainText(loaded, arg) == Ok(None)
  {
  }

  /** An argument of neither kind raises TypeError once a non-empty mapping is loaded. */
  lemma PlainTextRejectsOtherArg(d: Dict<int, PageContent>)
    requires d != []
    ensures PlainText(Some(d), OtherArg).Err? && PlainText(Some(d), OtherArg).error.TypeError?
  {
  }

  /** An empty page list yields the empty string. */
  lemma PlainTextEmptyList(d: Dict<int, PageContent>)
    requires d != []
    ensures PlainText(Some(d), PageList([])) == Ok(Some(TextContent("")))
  {
  }

  /** Retrieval after saving: one page comes back as stored (not stripped), or None when absent. */
  lemma {:induction false} PageAfterSave(files: map<string, File>, stem: string, format: string,
                                         pages: Dict<int, PageContent>, n: int)
    requires pages != []
    ensures var loaded := Load(files[ContentPath(stem, format) := Artifact(Records(pages))], stem, format);
            PlainText(loaded, Page(n)) == Ok(Get(pages, n))
  {
    LoadAfterSave(files, stem, format, pages);
  }

  /** Retrieval of a page list after saving string contents: None iff a page is missing, else the
      stripped concatenation of the contents in request order. */
  lemma {:induction false} PageListAfterSave(files: map<string, File>, stem: string, format: string,
                                             pages: Dict<int, PageContent>, ns: seq<int>)
    requires pages != [] && AllText(pages)
    ensures var r := PlainText(Load(files[ContentPath(stem, format) := Artifact(Records(pages))], stem, format), PageList(ns));
            && r.Ok? && Gather(pages, ns).Ok?
            && (r.value.None? <==> exists k :: 0 <= k < |ns| && ns[k] !in Keys(pages))
            && (Gather(pages, ns).value.Some? ==> r.value == Some(TextContent(Strip(Gather(pages, ns).value.value))))
  {
    LoadAfterSave(files, stem, format, pages);
    GatherAllOrNothing(pages, ns);
  }

  function ExampleMapping(): Dict<int, PageContent> {
    [(1, TextContent(" one")), (2, TextContent("two ")), (3, TextContent("three"))]
  }

  /** The worked case: with pages {1, 2, 3} stored, asking for [1, 2, 4] gives None. */
  lemma PlainTextMissingExample()
    ensures PlainText(Some(ExampleMapping()), PageList([1, 2, 4])) == Ok(None)
  {
    var d := ExampleMapping();
    assert Keys(d) == [1, 2, 3];
    GatherAllOrNothing(d, [1, 2, 4]);
    assert [1, 2, 4][2] !in Keys(d);
  }

  /** The worked case: asking for [2, 1] gives content 2 then content 1, stripped. */
  lemma PlainTextOrderExample()
    ensures PlainText(Some(ExampleMapping()), PageList([2, 1])) == Ok(Some(TextContent("two  one")))
  {
    var joined := ExampleGather();
    ExampleStripped(joined);
    PlainTextOfGathered(ExampleMapping(), [2, 1], joined);
  }

  lemma ExampleStripped(joined: string)
    requires joined == "two  one"
    ensures Strip(joined) == joined
  {
    assert joined[0] == 't' && joined[|joined| - 1] == 'e';
    StripUnchanged(joined);
  }

  /** A page list whose gathering succeeds yields the stripped text. */
  lemma PlainTextOfGathered(d: Dict<int, PageContent>, ns: seq<int>, s: string)
    requires d != [] && Gather(d, ns) == Ok(Some(s))
    ensures PlainText(Some(d), PageList(ns)) == Ok(Some(TextContent(Strip(s))))
  {
    var g := Gather(d, ns);
    assert g.Ok? && g.value == Some(s);
  }

  /** Pages 2 and 1 of the example mapping gathered in that order. */
  lemma ExampleGather() returns (joined: string)
    ensures joined == "two  one"
    ensures Gather(ExampleMapping(), [2, 1]) == Ok(Some(joined))
  {
    var d := ExampleMapping();
    GetAt(d, 0);
    GetAt(d, 1);
    var one, two := " one", "two ";
    assert Gather(d, [1]) == Ok(Some(one)) by {
      assert [1][1..] == [];
      assert one + "" == one;
    }
    assert [2, 1][1..] == [1];
    joined := two + one;
  }

  class ContentManager {
    const dir: OutputDir

    /** `ContentManager(output_dir)`; creating the directory is not modelled. */
    constructor (dir: OutputDir)
      ensures this.dir == dir
    {
      this.dir := dir;
    }

    /** `has_content`: the artifact file exists. */
    predicate HasContent(stem: string, format: string)
      reads dir
      ensures !HasContent(stem, format) ==> Load(dir.files, stem, format).None?
    {
      ContentPath(stem, format) in dir.files
    }

    /** `save_content`: writes the records of `pages`, in order, over any earlier artifact. */
    method SaveContent(stem: string, format: string, pages: Dict<int, PageContent>)
      modifies dir
      ensures dir.files == old(dir.files)[ContentPath(stem, format) := Artifact(Records(pages))]
      ensures HasContent(stem, format)
      ensures Load(dir.files, stem, format) == Some(pages)
    {
      var path := ContentPath(stem, format);
      var data: seq<Record> := [];
      for i := 0 to |pages|
        invariant data == Records(pages[..i])
      {
        data := data + [Record(pages[i].0, pages[i].1)];
      }
      assert pages[..|pages|] == pages;
      dir.Write(path, Artifact(data));
      LoadAfterSave(old(dir.files), stem, format, pages);
    }

    /** `load_content`. */
    method LoadContent(stem: string, format: string) returns (r: Option<Dict<int, PageContent>>)
      ensures r == Load(dir.files, stem, format)
    {
      var path := ContentPath(stem, format);
      if path !in dir.files {
        return None;
      }
      match dir.files[path]
      case Artifact(data) =>
        var pageContents: Dict<int, PageContent> := [];
        for i := 0 to |data|
          invariant pageContents == Decoded(data[..i])
        {
          assert data[..i + 1][..i] == data[..i];
          pageContents := Put(pageContents, data[i].page, data[i].content);
        }
        assert data[..|data|] == data;
        r := Some(pageContents);
      case _ =>
        r := None;
    }

    /** The loop of `get_page_content_plain_text` over a list of pages: `results += content`
        per requested page, returning None at the first missing one. */
    static method GatherContents(d: Dict<int, PageContent>, ns: seq<int>) returns (r: Result<Option<string>>)
      ensures r == Gather(d, ns)
    {
      var results := "";
      var i := 0;
      assert ns[0..] == ns;
      match Gather(d, ns) {
        case Ok(Some(t)) => assert "" + t == t;
        case _ =>
      }
      while i < |ns|
        invariant 0 <= i <= |ns|
        invariant Gather(d, ns) == Prefixed(results, Gather(d, ns[i..]))
      {
        assert ns[i..][1..] == ns[i + 1..];
        var content := Get(d, ns[i]);
        if content.None? {
          return Ok(None);
        }
        match content.value {
          case RowsContent(_) =>
            return Err(TypeError("can only concatenate str (not \"list\") to str"));
          case TextContent(s) =>
            match Gather(d, ns[i + 1..]) {
              case Ok(Some(t)) => assert results + (s + t) == (results + s) + t;
              case _ =>
            }
            results := results + s;
        }
        i := i + 1;
      }
      assert ns[i..] == [] && results + "" == results;
      r := Ok(Some(results));
    }

    /** `get_page_content_plain_text`. */
    method GetPageContentPlainText(stem: string, format: string, page: PageArg) returns (r: Result<Option<PageContent>>)
      ensures r == PlainText(Load(dir.files, stem, format), page)
    {
      var pageContents := LoadContent(stem, format);
      if pageContents.None? || pageContents.value == [] {
        return Ok(None);
      }
      var d := pageContents.value;
      match page
      case Page(n) =>
        r := Ok(Get(d, n));
      case PageList(ns) =>
        var joined := GatherContents(d, ns);
        match joined {
          case Ok(Some(text)) => r := Ok(Some(TextContent(Strip(text))));
          case Ok(None) => r := Ok(None);
          case Err(e) => r := Err(e);
        }
      case OtherArg =>
        r := Err(TypeError("page must be an int or a list of ints"));
    }
  }
}
