/** Python dictionaries as insertion-ordered sequences of (key, value) pairs
    with pairwise distinct keys: `d[k] = v` replaces the value in place when
    `k` is present and appends the pair otherwise, and `d.items()` iterates
    in insertion order. */
module Dicts {
  import opened Wrappers

  /** The keys at positions `i` and `j` differ. */
  predicate KeysDiffer<K(==), V>(d: seq<(K, V)>, i: int, j: int)
  {
    0 <= i < |d| && 0 <= j < |d| && d[i].0 != d[j].0
  }

  predicate DistinctKeys<K(==), V>(d: seq<(K, V)>) {
    forall i, j :: 0 <= i < j < |d| ==> KeysDiffer(d, i, j)
  }

  type Dict<K(==), V> = d: seq<(K, V)> | DistinctKeys(d) witness []

  /** In a dictionary, a key occurs at one position only. */
  lemma SameKey<K, V>(d: Dict<K, V>, i: nat, j: nat)
    requires i < |d| && j < |d|
    ensures d[i].0 == d[j].0 ==> i == j
  {
    if i < j {
      assert KeysDiffer(d, i, j);
    } else if j < i {
      assert KeysDiffer(d, j, i);
    }
  }

  /** A prefix of a dictionary is a dictionary. */
  lemma PrefixDistinct<K, V>(d: Dict<K, V>, n: nat)
    requires n <= |d|
    ensures DistinctKeys(d[..n])
  {
    forall i, j | 0 <= i < j < n
      ensures KeysDiffer(d[..n], i, j)
    {
      assert KeysDiffer(d, i, j);
    }
  }

  /** `list(d.keys())`. */
  function Keys<K(==), V>(d: seq<(K, V)>): (ks: seq<K>)
    ensures |ks| == |d|
    ensures forall i {:trigger ks[i]} :: 0 <= i < |d| ==> ks[i] == d[i].0
  {
    seq(|d|, i requires 0 <= i < |d| => d[i].0)
  }

  /** The keys of a non-empty list are those of its front, then the last key. */
  lemma KeysSnoc<K, V>(d: seq<(K, V)>)
    requires d != []
    ensures Keys(d) == Keys(d[..|d| - 1]) + [d[|d| - 1].0]
  {
    var front := d[..|d| - 1];
    assert forall i :: 0 <= i < |front| ==> Keys(d)[i] == Keys(front)[i];
  }

  /** The position of key `k` in `d`, or -1 when `k` is absent. */
  function IndexOf<K(==), V>(d: seq<(K, V)>, k: K): (i: int)
    ensures -1 <= i < |d|
    ensures i >= 0 ==> d[i].0 == k
    ensures i < 0 <==> k !in Keys(d)
  {
    if d == [] then -1
    else
      KeysSnoc(d);
      if d[|d| - 1].0 == k then |d| - 1
      else IndexOf(d[..|d| - 1], k)
  }

  /** `d.get(k)`. */
  function Get<K(==), V>(d: Dict<K, V>, k: K): (r: Option<V>)
    ensures r.None? <==> k !in Keys(d)
    ensures r.Some? ==> exists i :: 0 <= i < |d| && d[i] == (k, r.value)
  {
    var i := IndexOf(d, k);
    if i < 0 then None else Some(d[i].1)
  }

  /** In a dictionary, the value at a position is the value of its key. */
  lemma GetAt<K, V>(d: Dict<K, V>, i: nat)
    requires i < |d|
    ensures Get(d, d[i].0) == Some(d[i].1)
  {
    assert Keys(d)[i] == d[i].0;
    SameKey(d, i, IndexOf(d, d[i].0));
  }

  /** `d[k] = v`. */
  function Put<K(==,!new), V>(d: Dict<K, V>, k: K, v: V): (r: Dict<K, V>)
    ensures k in Keys(d) ==> Keys(r) == Keys(d)
    ensures k !in Keys(d) ==> r == d + [(k, v)]
  {
    var i := IndexOf(d, k);
    var r := if i >= 0 then d[i := (k, v)] else d + [(k, v)];
    assert DistinctKeys(r) by {
      forall a, b | 0 <= a < b < |r|
        ensures KeysDiffer(r, a, b)
      {
        if b < |d| {
          assert KeysDiffer(d, a, b);
        } else {
          assert Keys(d)[a] == d[a].0;
        }
      }
    }
    if i >= 0 then
      assert Keys(r) == Keys(d) by {
        assert forall a :: 0 <= a < |d| ==> Keys(r)[a] == Keys(d)[a];
      }
      r
    else r
  }

  /** After `d[k] = v`, `k` maps to `v` and every other key keeps its value. */
  lemma PutGet<K(!new), V>(d: Dict<K, V>, k: K, v: V)
    ensures Get(Put(d, k, v), k) == Some(v)
    ensures forall k' :: k' != k ==> Get(Put(d, k, v), k') == Get(d, k')
  {
    var r := Put(d, k, v);
    var i := IndexOf(d, k);
    var at := if i >= 0 then i else |d|;
    assert r[at] == (k, v);
    GetAt(r, at);
    if i < 0 {
      KeysSnoc(r);
      assert r[..|d|] == d;
    }
    forall k' | k' != k
      ensures Get(r, k') == Get(d, k')
    {
      assert k' in Keys(r) <==> k' in Keys(d);
      var j := IndexOf(d, k');
      if j >= 0 {
        assert r[j] == d[j];
        GetAt(r, j);
        GetAt(d, j);
      }
    }
  }

  /** The same keys in the same order, every value transformed by `f`. */
  function MapValues<K(==), V, W>(d: Dict<K, V>, f: V -> W): (r: Dict<K, W>)
    ensures |r| == |d| && Keys(r) == Keys(d)
    ensures forall i :: 0 <= i < |d| ==> r[i] == (d[i].0, f(d[i].1))
  {
    var r := seq(|d|, i requires 0 <= i < |d| => (d[i].0, f(d[i].1)));
    assert DistinctKeys(r) by {
      forall a, b | 0 <= a < b < |r|
        ensures KeysDiffer(r, a, b)
      {
        assert KeysDiffer(d, a, b);
      }
    }
    r
  }
}
