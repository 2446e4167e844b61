/** The two loop shapes the exporters share: the per-page loop of every
    `convert_to_format` (`for page_number in doc.pages.keys():
    pages_content[page_number] = render(page)`) and the per-item loops
    that build a list and stop at the first item that raises. */
module PageMaps {
  import opened Wrappers
  import opened Dicts
  import opened Values
  import opened Docs

  /** One entry per page, in page order, or the error of the first page whose rendering raises. */
  function MapPages<V>(ser: Serialisers, pages: seq<(int, PageData)>,
                       render: (Serialisers, int, PageData) -> Result<V>): Result<Dict<int, V>>
  {
    if pages == [] then Ok([])
    else
      var n := |pages| - 1;
      var front := pages[..n];
      var acc :- MapPages(ser, front, render);
      var v :- render(ser, pages[n].0, pages[n].1);
      Ok(Put(acc, pages[n].0, v))
  }

  /** The per-page map succeeds exactly when every page renders; then it has the document's
      page keys, in order, each holding its page's rendering; otherwise its error is a page's. */
  lemma MapPagesShape<V>(ser: Serialisers, pages: Dict<int, PageData>,
                         render: (Serialisers, int, PageData) -> Result<V>)
    ensures var r := MapPages(ser, pages, render);
            && (r.Ok? <==> forall i :: 0 <= i < |pages| ==> render(ser, pages[i].0, pages[i].1).Ok?)
            && (r.Ok? ==> Keys(r.value) == Keys(pages))
            && (r.Ok? ==> forall i :: 0 <= i < |pages| ==> render(ser, pages[i].0, pages[i].1) == Ok(r.value[i].1))
            && (r.Err? ==> exists i :: 0 <= i < |pages| && render(ser, pages[i].0, pages[i].1) == Err(r.error))
  {
    MapPagesOutcome(ser, pages, render);
    if MapPages(ser, pages, render).Ok? {
      MapPagesEntries(ser, pages, render);
    }
  }

  /** Success exactly when every page renders; an error is some page's error. */
  lemma {:induction false} MapPagesOutcome<V>(ser: Serialisers, pages: seq<(int, PageData)>,
                                              render: (Serialisers, int, PageData) -> Result<V>)
    ensures MapPages(ser, pages, render).Ok? <==> forall i :: 0 <= i < |pages| ==> render(ser, pages[i].0, pages[i].1).Ok?
    ensures MapPages(ser, pages, render).Err? ==>
              exists i :: 0 <= i < |pages| && render(ser, pages[i].0, pages[i].1) == Err(MapPages(ser, pages, render).error)
    decreases |pages|
  {
    if pages != [] {
      var n := |pages| - 1;
      var front := pages[..n];
      assert forall i :: 0 <= i < n ==> front[i] == pages[i];
      MapPagesOutcome(ser, front, render);
      var acc := MapPages(ser, front, render);
      var last := render(ser, pages[n].0, pages[n].1);
      if acc.Err? {
        var i :| 0 <= i < n && render(ser, front[i].0, front[i].1) == Err(acc.error);
        assert MapPages(ser, pages, render) == Err(acc.error);
        assert render(ser, pages[i].0, pages[i].1) == Err(acc.error);
      } else if last.Err? {
        assert MapPages(ser, pages, render) == Err(last.error);
      } else {
        assert MapPages(ser, pages, render).Ok?;
      }
    }
  }

  /** On success the entries are the pages' keys, in order, each holding its page's rendering. */
  lemma {:induction false} MapPagesEntries<V>(ser: Serialisers, pages: Dict<int, PageData>,
                                              render: (Serialisers, int, PageData) -> Result<V>)
    requires MapPages(ser, pages, render).Ok?
    ensures Keys(MapPages(ser, pages, render).value) == Keys(pages)
    ensures forall i :: 0 <= i < |pages| ==>
              render(ser, pages[i].0, pages[i].1) == Ok(MapPages(ser, pages, render).value[i].1)
    decreases |pages|
  {
    if pages != [] {
      var n := |pages| - 1;
      PrefixDistinct(pages, n);
      var front: Dict<int, PageData> := pages[..n];
      MapPagesEntries(ser, front, render);
      MapPagesAppends(ser, pages, render);
      var r := MapPages(ser, pages, render).value;
      var acc := MapPages(ser, front, render).value;
      assert r[..n] == acc;
      KeysSnoc(r);
      KeysSnoc(pages);
      forall i | 0 <= i < |pages|
        ensures render(ser, pages[i].0, pages[i].1) == Ok(r[i].1)
      {
        if i < n {
          assert front[i] == pages[i] && r[i] == acc[i];
        }
      }
    }
  }

  /** With distinct page keys, each page's entry is appended after those of the pages before it. */
  lemma MapPagesAppends<V>(ser: Serialisers, pages: Dict<int, PageData>,
                           render: (Serialisers, int, PageData) -> Result<V>)
    requires pages != [] && MapPages(ser, pages, render).Ok?
    ensures var n := |pages| - 1;
            MapPages(ser, pages[..n], render).Ok?
            && Keys(MapPages(ser, pages[..n], render).value) == Keys(pages[..n])
            ==> MapPages(ser, pages, render).value
                == MapPages(ser, pages[..n], render).value + [(pages[n].0, render(ser, pages[n].0, pages[n].1).value)]
  {
    var n := |pages| - 1;
    forall k | 0 <= k < n
      ensures Keys(pages[..n])[k] != pages[n].0
    {
      SameKey(pages, k, n);
    }
  }

  /** One more page: the map of a longer prefix extends the map of the shorter one. */
  lemma MapPagesStep<V>(ser: Serialisers, pages: seq<(int, PageData)>,
                        render: (Serialisers, int, PageData) -> Result<V>, i: nat, acc: Dict<int, V>, v: V)
    requires i < |pages|
    requires MapPages(ser, pages[..i], render) == Ok(acc)
    requires render(ser, pages[i].0, pages[i].1) == Ok(v)
    ensures MapPages(ser, pages[..i + 1], render) == Ok(Put(acc, pages[i].0, v))
  {
    assert pages[..i + 1][..i] == pages[..i];
  }

  /** Two renderings that agree wherever the first succeeds give the same page dictionary
      wherever the first's succeeds. */
  lemma {:induction false} MapPagesAgree<V>(ser: Serialisers, pages: seq<(int, PageData)>,
                                            f: (Serialisers, int, PageData) -> Result<V>,
                                            g: (Serialisers, int, PageData) -> Result<V>)
    requires forall i :: 0 <= i < |pages| && f(ser, pages[i].0, pages[i].1).Ok? ==>
               g(ser, pages[i].0, pages[i].1) == f(ser, pages[i].0, pages[i].1)
    ensures MapPages(ser, pages, f).Ok? ==> MapPages(ser, pages, g) == MapPages(ser, pages, f)
    decreases |pages|
  {
    if pages != [] {
      var n := |pages| - 1;
      var front := pages[..n];
      forall i | 0 <= i < |front| && f(ser, front[i].0, front[i].1).Ok?
        ensures g(ser, front[i].0, front[i].1) == f(ser, front[i].0, front[i].1)
      {
        assert front[i] == pages[i];
      }
      MapPagesAgree(ser, front, f, g);
    }
  }

  /** A page that raises makes the whole conversion raise with its error, pages before it being fine. */
  lemma {:induction false} MapPagesFails<V>(ser: Serialisers, pages: seq<(int, PageData)>,
                                            render: (Serialisers, int, PageData) -> Result<V>, i: nat, acc: Dict<int, V>)
    requires i < |pages|
    requires MapPages(ser, pages[..i], render) == Ok(acc)
    requires render(ser, pages[i].0, pages[i].1).Err?
    ensures MapPages(ser, pages, render) == Err(render(ser, pages[i].0, pages[i].1).error)
    decreases |pages|
  {
    if i == |pages| - 1 {
      assert pages[..|pages| - 1] == pages[..i];
    } else {
      var front := pages[..|pages| - 1];
      assert front[..i] == pages[..i];
      assert front[i] == pages[i];
      MapPagesFails(ser, front, render, i, acc);
    }
  }

  /** Apply `f` to every element in order, or give the error of the first one that raises. */
  function MapAll<T, U>(xs: seq<T>, f: T -> Result<U>): (r: Result<seq<U>>)
    ensures r.Ok? <==> forall i :: 0 <= i < |xs| ==> f(xs[i]).Ok?
    ensures r.Ok? ==> |r.value| == |xs| && forall i :: 0 <= i < |xs| ==> f(xs[i]) == Ok(r.value[i])
    ensures r.Err? ==> exists i :: 0 <= i < |xs| && f(xs[i]) == Err(r.error)
  {
    if xs == [] then Ok([])
    else
      var front :- MapAll(xs[..|xs| - 1], f);
      var v :- f(xs[|xs| - 1]);
      Ok(front + [v])
  }

  lemma MapAllStep<T, U>(xs: seq<T>, f: T -> Result<U>, i: nat, acc: seq<U>, v: U)
    requires i < |xs|
    requires MapAll(xs[..i], f) == Ok(acc)
    requires f(xs[i]) == Ok(v)
    ensures MapAll(xs[..i + 1], f) == Ok(acc + [v])
  {
    assert xs[..i + 1][..i] == xs[..i];
  }

  /** The first element that raises decides the error of the whole map. */
  lemma {:induction false} MapAllFails<T, U>(xs: seq<T>, f: T -> Result<U>, i: nat, acc: seq<U>)
    requires i < |xs|
    requires MapAll(xs[..i], f) == Ok(acc)
    requires f(xs[i]).Err?
    ensures MapAll(xs, f) == Err(f(xs[i]).error)
    decreases |xs|
  {
    if i == |xs| - 1 {
      assert xs[..|xs| - 1] == xs[..i];
    } else {
      var front := xs[..|xs| - 1];
      assert front[..i] == xs[..i];
      assert front[i] == xs[i];
      MapAllFails(front, f, i, acc);
    }
  }

  /** The values present in a list of options, in order. */
  function Present<T>(xs: seq<Option<T>>): (r: seq<T>)
    ensures |r| <= |xs|
  {
    if xs == [] then []
    else Present(xs[..|xs| - 1]) + (if xs[|xs| - 1].Some? then [xs[|xs| - 1].value] else [])
  }

  lemma PresentStep<T>(xs: seq<Option<T>>, x: Option<T>)
    ensures x.Some? ==> Present(xs + [x]) == Present(xs) + [x.value]
    ensures x.None? ==> Present(xs + [x]) == Present(xs)
  {
    assert (xs + [x])[..|xs|] == xs;
    assert Present(xs) + [] == Present(xs);
  }
}
