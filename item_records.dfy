/** The page records the JSON and YAML exporters build before serialising
    them (`_get_dict_for_page`, identical in both), the duplicate-column
    renaming they apply to tables, and the `{document_name, pages}` record
    their consolidated files hold. */
module Records {
  import opened Wrappers
  import opened Dicts
  import opened Text
  import opened Values
  import opened Docs
  import opened PageMaps

  /** What `table_data` becomes when anything in the table export raises. */
  const NotExtractable := "Table content not extractable"

  // ---------------------------------------------------------------------
  // Duplicate-column renaming
  // ---------------------------------------------------------------------

  /** How many times `x` occurs in `s`. */
  function Occurrences(s: seq<string>, x: string): (n: nat)
    ensures n <= |s|
  {
    if s == [] then 0
    else Occurrences(s[..|s| - 1], x) + (if s[|s| - 1] == x then 1 else 0)
  }

  /** A name is counted exactly when it occurs. */
  lemma {:induction false} OccursIff(s: seq<string>, x: string)
    ensures Occurrences(s, x) > 0 <==> x in s
  {
    if s != [] {
      var front := s[..|s| - 1];
      OccursIff(front, x);
      assert s == front + [s[|s| - 1]];
    }
  }

  /** The label given to the `k`-th occurrence of `name`. */
  function Label(name: string, k: nat): string
  {
    if k <= 1 then name else name + "_" + NatToString(k)
  }

  /** Column `i` keeps its name if it is the first of that name and becomes `name_k` if it is the k-th. */
  function Renamed(columns: seq<string>): (r: seq<string>)
    ensures |r| == |columns|
  {
    seq(|columns|, i requires 0 <= i < |columns| => Label(columns[i], Occurrences(columns[..i + 1], columns[i])))
  }

  /** No two labels are equal. */
  predicate IsUnique(columns: seq<string>)
  {
    forall i, j :: 0 <= i < j < |columns| ==> columns[i] != columns[j]
  }

  /** The columns assigned before `to_dict` is called: `None` when pandas reports the original
      labels unique (they are kept), the renamed `str` labels otherwise. */
  function FinalColumns(frame: Frame): (r: Option<seq<string>>)
    ensures r.None? <==> frame.columnsUnique
    ensures r.Some? ==> |r.value| == |frame.columns|
  {
    if frame.columnsUnique then None else Some(Renamed(frame.columns))
  }

  /** Counting one more element of a prefix. */
  lemma OccurrencesStep(s: seq<string>, i: nat, x: string)
    requires i < |s|
    ensures Occurrences(s[..i + 1], x) == Occurrences(s[..i], x) + (if s[i] == x then 1 else 0)
  {
    assert s[..i + 1][..i] == s[..i];
  }

  lemma RenamedAt(columns: seq<string>, i: nat)
    requires i < |columns|
    ensures Renamed(columns)[i] == Label(columns[i], Occurrences(columns[..i + 1], columns[i]))
  {
  }

  /** `df.columns = new_columns` when the columns are not unique; `None` when they are left as they are. */
  method MakeColumnsUnique(frame: Frame) returns (r: Option<seq<string>>)
    ensures frame.columnsUnique ==> r.None?
    ensures !frame.columnsUnique ==> r == Some(Renamed(frame.columns))
  {
    if frame.columnsUnique {
      r := None;
    } else {
      var columns := RenameColumns(frame.columns);
      r := Some(columns);
    }
  }

  /** The renaming loop with its `seen_columns` counters. */
  method RenameColumns(columns: seq<string>) returns (r: seq<string>)
    ensures r == Renamed(columns)
  {
    var newColumns: seq<string> := [];
    var seen: map<string, nat> := map[];
    for i := 0 to |columns|
      invariant newColumns == Renamed(columns)[..i]
      invariant seen == SeenAfter(columns[..i])
    {
      var name := columns[i];
      assert columns[..i + 1][..i] == columns[..i];
      SeenAfterCounts(columns[..i], name);
      SeenAfterCounts(columns[..i + 1], name);
      RenamedAt(columns, i);
      var newName;
      if name in seen {
        seen := seen[name := seen[name] + 1];
        newName := name + "_" + NatToString(seen[name]);
      } else {
        seen := seen[name := 1];
        newName := name;
      }
      assert Renamed(columns)[..i + 1] == Renamed(columns)[..i] + [newName];
      newColumns := newColumns + [newName];
    }
    assert Renamed(columns)[..|columns|] == Renamed(columns);
    r := newColumns;
  }

  /** `seen_columns` after the loop has passed the names `s`. */
  function SeenAfter(s: seq<string>): map<string, nat>
  {
    if s == [] then map[]
    else
      var m := SeenAfter(s[..|s| - 1]);
      var x := s[|s| - 1];
      if x in m then m[x := m[x] + 1] else m[x := 1]
  }

  /** The counters count: a name has one exactly when it occurred, and it holds its number of
      occurrences. */
  lemma {:induction false} SeenAfterCounts(s: seq<string>, x: string)
    ensures x in SeenAfter(s) <==> Occurrences(s, x) > 0
    ensures x in SeenAfter(s) ==> SeenAfter(s)[x] == Occurrences(s, x)
  {
    if s != [] {
      SeenAfterCounts(s[..|s| - 1], x);
    }
  }

  /** Columns that are already unique are left exactly as they are, by either branch. */
  lemma RenamedUnique(columns: seq<string>)
    requires IsUnique(columns)
    ensures Renamed(columns) == columns
  {
    forall i | 0 <= i < |columns|
      ensures Renamed(columns)[i] == columns[i]
    {
      assert columns[..i + 1][..i] == columns[..i];
      assert columns[i] !in columns[..i];
      OccursIff(columns[..i], columns[i]);
    }
  }

  lemma LabelTwo(name: string)
    ensures Label(name, 2) == name + "_2"
  {
    assert NatToString(2) == [DigitChar(2)] == "2";
  }

  /** `["A", "A", "B"]` becomes `["A", "A_2", "B"]`. */
  lemma RenameExample()
    ensures Renamed(["A", "A", "B"]) == ["A", "A_2", "B"]
  {
    var c := ["A", "A", "B"];
    OccurrencesStep(c, 0, "A");
    OccurrencesStep(c, 1, "A");
    OccurrencesStep(c, 0, "B");
    OccurrencesStep(c, 1, "B");
    OccurrencesStep(c, 2, "B");
    assert c[..0] == [];
    RenamedAt(c, 0);
    RenamedAt(c, 1);
    RenamedAt(c, 2);
    LabelTwo("A");
    assert Occurrences(c[..0], "A") == 0;
    assert Occurrences(c[..1], "A") == 1;
    assert Occurrences(c[..2], "A") == 2;
    assert Occurrences(c[..3], "B") == 1;
    assert Renamed(c)[0] == "A";
    assert Renamed(c)[1] == "A_2";
    assert Renamed(c)[2] == "B";
    assert Renamed(c) == ["A", "A_2", "B"];
  }

  /** The renaming does not always produce unique columns: `["A", "A", "A_2"]` becomes `["A", "A_2", "A_2"]`. */
  lemma RenameMayClash()
    ensures Renamed(["A", "A", "A_2"]) == ["A", "A_2", "A_2"]
    ensures !IsUnique(Renamed(["A", "A", "A_2"]))
  {
    var c := ["A", "A", "A_2"];
    OccurrencesStep(c, 0, "A");
    OccurrencesStep(c, 1, "A");
    OccurrencesStep(c, 0, "A_2");
    OccurrencesStep(c, 1, "A_2");
    OccurrencesStep(c, 2, "A_2");
    assert c[..0] == [];
    RenamedAt(c, 0);
    RenamedAt(c, 1);
    RenamedAt(c, 2);
    LabelTwo("A");
    assert Occurrences(c[..0], "A") == 0;
    assert Occurrences(c[..1], "A") == 1;
    assert Occurrences(c[..2], "A") == 2;
    assert Occurrences(c[..3], "A_2") == 1;
    assert Renamed(c)[0] == "A";
    assert Renamed(c)[1] == "A_2";
    assert Renamed(c)[2] == "A_2";
    assert Renamed(c) == ["A", "A_2", "A_2"];
    var r := Renamed(c);
    assert r[1] == r[2];
  }

  // ---------------------------------------------------------------------
  // Item and page records
  // ---------------------------------------------------------------------

  /** `table_data`: `to_dict()` of the table with its final columns, or the fallback text. */
  function TableData(frame: Option<Frame>): Value
  {
    match frame
    case None => Str(NotExtractable)
    case Some(f) =>
      match f.toDict(FinalColumns(f))
      case None => Str(NotExtractable)
      case Some(d) => d
  }

  /** `caption`: the caption text, `None` when the item has no `caption_text`; a raising call propagates. */
  function CaptionValue(c: Caption): Result<Value>
  {
    match c
    case NoCaptionText => Ok(Null)
    case CaptionRaises => Err(ForeignError("caption_text"))
    case CaptionText(t) => Ok(Str(t))
  }

  /** The dict for one item: `type` first, then the field its kind adds. */
  function ItemRecord(item: Item): Result<Value>
  {
    var kind := ("type", Str(item.className));
    match item
    case TextItem(_, text) => Ok(Object([kind, ("text", Str(text))]))
    case TableItem(_, frame) => Ok(Object([kind, ("table_data", TableData(frame))]))
    case PictureItem(_, caption) =>
      var c :- CaptionValue(caption);
      Ok(Object([kind, ("caption", c)]))
    case OtherItem(_) => Ok(Object([kind]))
  }

  /** `{"page_number": n, "items": [...]}`, one item dict per item in iteration order. */
  function PageRecord(pageNumber: int, items: seq<Item>): Result<Value>
  {
    var records :- MapAll(items, ItemRecord);
    Ok(Object([("page_number", Int(pageNumber)), ("items", List(records))]))
  }

  /** An item dict always starts with the item's class name; only a raising caption makes it fail. */
  lemma ItemRecordShape(item: Item)
    ensures ItemRecord(item).Err? <==> item.PictureItem? && item.caption.CaptionRaises?
    ensures ItemRecord(item).Ok? ==>
              var v := ItemRecord(item).value;
              v.Object? && |v.fields| >= 1 && v.fields[0] == ("type", Str(item.className))
              && (item.OtherItem? <==> |v.fields| == 1)
              && (item.TextItem? ==> v.fields[1] == ("text", Str(item.text)))
              && (item.TableItem? ==> v.fields[1] == ("table_data", TableData(item.frame)))
              && (item.PictureItem? && item.caption.NoCaptionText? ==> v.fields[1] == ("caption", Null))
              && (item.PictureItem? && item.caption.CaptionText? ==> v.fields[1] == ("caption", Str(item.caption.text)))
  {
  }

  /** A table never fails its page: every failure of the export becomes the fallback text. */
  lemma TableNeverFails(className: string, frame: Option<Frame>)
    ensures ItemRecord(TableItem(className, frame)).Ok?
    ensures var v := TableData(frame);
            v == Str(NotExtractable) || (frame.Some? && frame.value.toDict(FinalColumns(frame.value)) == Some(v))
    ensures frame.None? || frame.value.toDict(FinalColumns(frame.value)).None? ==> TableData(frame) == Str(NotExtractable)
  {
  }

  /** The page record holds one item dict per item, in order, each typed by its class name;
      the page fails exactly when some picture's caption call raises. */
  lemma PageRecordShape(pageNumber: int, items: seq<Item>)
    ensures PageRecord(pageNumber, items).Err? <==>
              exists i :: 0 <= i < |items| && items[i].PictureItem? && items[i].caption.CaptionRaises?
    ensures PageRecord(pageNumber, items).Ok? ==>
              var v := PageRecord(pageNumber, items).value;
              v.Object? && |v.fields| == 2
              && v.fields[0] == ("page_number", Int(pageNumber))
              && v.fields[1].0 == "items" && v.fields[1].1.List?
              && |v.fields[1].1.elems| == |items|
              && forall i :: 0 <= i < |items| ==>
                   Ok(v.fields[1].1.elems[i]) == ItemRecord(items[i])
                   && v.fields[1].1.elems[i].fields[0] == ("type", Str(items[i].className))
  {
    var r := MapAll(items, ItemRecord);
    forall i | 0 <= i < |items|
      ensures ItemRecord(items[i]).Err? <==> items[i].PictureItem? && items[i].caption.CaptionRaises?
    {
      ItemRecordShape(items[i]);
    }
    if r.Ok? {
      forall i | 0 <= i < |items|
        ensures r.value[i].fields[0] == ("type", Str(items[i].className))
      {
        ItemRecordShape(items[i]);
      }
    }
  }

  /** `_get_dict_for_page`: the loop appending item dicts to `page_dict["items"]`. */
  method GetDictForPage(pageNumber: int, items: seq<Item>) returns (r: Result<Value>)
    ensures r == PageRecord(pageNumber, items)
  {
    var records: seq<Value> := [];
    for i := 0 to |items|
      invariant MapAll(items[..i], ItemRecord) == Ok(records)
    {
      var item := items[i];
      var kind := ("type", Str(item.className));
      var itemDict: Value;
      match item {
        case TextItem(_, text) =>
          itemDict := Object([kind, ("text", Str(text))]);
        case TableItem(_, frame) =>
          var tableData := Str(NotExtractable);
          if frame.Some? {
            var columns := MakeColumnsUnique(frame.value);
            var d := frame.value.toDict(columns);
            if d.Some? {
              tableData := d.value;
            }
          }
          itemDict := Object([kind, ("table_data", tableData)]);
        case PictureItem(_, caption) =>
          if caption.CaptionRaises? {
            MapAllFails(items, ItemRecord, i, records);
            return Err(ForeignError("caption_text"));
          }
          var c := if caption.CaptionText? then Str(caption.text) else Null;
          itemDict := Object([kind, ("caption", c)]);
        case OtherItem(_) =>
          itemDict := Object([kind]);
      }
      MapAllStep(items, ItemRecord, i, records, itemDict);
      records := records + [itemDict];
    }
    assert items[..|items|] == items;
    return Ok(Object([("page_number", Int(pageNumber)), ("items", List(records))]));
  }

  // ---------------------------------------------------------------------
  // The consolidated document record
  // ---------------------------------------------------------------------

  /** `{"page_number": n, "content": load(content)}` for each mapping entry, in mapping order;
      a raising parse (named `call`) aborts the save. */
  function PageEntries(pages: seq<(int, string)>, load: string -> Option<Value>, call: string): (r: Result<seq<Value>>)
    ensures r.Ok? <==> forall i :: 0 <= i < |pages| ==> load(pages[i].1).Some?
    ensures r.Ok? ==> |r.value| == |pages|
    ensures r.Ok? ==> forall i :: 0 <= i < |pages| ==>
              r.value[i] == Object([("page_number", Int(pages[i].0)), ("content", load(pages[i].1).value)])
    ensures r.Err? ==> r.error == ForeignError(call)
  {
    if pages == [] then Ok([])
    else
      var n := |pages| - 1;
      var front := pages[..n];
      assert forall i :: 0 <= i < n ==> front[i] == pages[i];
      var entries :- PageEntries(front, load, call);
      var content :- OrRaise(load(pages[n].1), call);
      Ok(entries + [Object([("page_number", Int(pages[n].0)), ("content", content)])])
  }

  /** `{"document_name": stem, "pages": [...]}`. */
  function DocumentRecord(stem: string, pages: seq<(int, string)>, load: string -> Option<Value>, call: string): Result<Value>
  {
    var entries :- PageEntries(pages, load, call);
    Ok(Object([("document_name", Str(stem)), ("pages", List(entries))]))
  }

  /** The consolidated loop appending to `data["pages"]`. */
  method BuildDocumentRecord(stem: string, pages: seq<(int, string)>, load: string -> Option<Value>, call: string)
    returns (r: Result<Value>)
    ensures r == DocumentRecord(stem, pages, load, call)
  {
    var entries: seq<Value> := [];
    for i := 0 to |pages|
      invariant PageEntries(pages[..i], load, call) == Ok(entries)
    {
      var (pageNumber, content) := pages[i];
      var parsed := load(content);
      assert pages[..i + 1][..i] == pages[..i];
      if parsed.None? {
        PageEntriesFails(pages, load, call, i, entries);
        return Err(ForeignError(call));
      }
      entries := entries + [Object([("page_number", Int(pageNumber)), ("content", parsed.value)])];
    }
    assert pages[..|pages|] == pages;
    return Ok(Object([("document_name", Str(stem)), ("pages", List(entries))]));
  }

  lemma {:induction false} PageEntriesFails(pages: seq<(int, string)>, load: string -> Option<Value>, call: string,
                                            i: nat, acc: seq<Value>)
    requires i < |pages|
    requires PageEntries(pages[..i], load, call) == Ok(acc)
    requires load(pages[i].1).None?
    ensures PageEntries(pages, load, call) == Err(ForeignError(call))
    decreases |pages|
  {
    if i == |pages| - 1 {
      assert pages[..|pages| - 1] == pages[..i];
    } else {
      var front := pages[..|pages| - 1];
      assert front[..i] == pages[..i];
      assert front[i] == pages[i];
      PageEntriesFails(front, load, call, i, acc);
    }
  }

  /** When every page parses back, the document record names the stem and holds the parsed pages in order. */
  lemma DocumentRecordShape(stem: string, pages: seq<(int, string)>, load: string -> Option<Value>, call: string)
    ensures DocumentRecord(stem, pages, load, call).Ok? <==> forall i :: 0 <= i < |pages| ==> load(pages[i].1).Some?
    ensures DocumentRecord(stem, pages, load, call).Ok? ==>
              var v := DocumentRecord(stem, pages, load, call).value;
              v.fields[0] == ("document_name", Str(stem))
              && v.fields[1].1.List? && |v.fields[1].1.elems| == |pages|
              && forall i :: 0 <= i < |pages| ==>
                   v.fields[1].1.elems[i] == Object([("page_number", Int(pages[i].0)), ("content", load(pages[i].1).value)])
  {
  }
}
