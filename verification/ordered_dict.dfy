/** The part of Python's `dict` the record assembly uses: string keys,
    insertion order, `d.get(k)`, `d[k] = v`, and the literal `{**d, **e}`.
    A dictionary is a list of entries with pairwise different keys, in
    insertion order. */
module OrderedDict {
  import opened Wrappers

  /** A JSON value of the record: a string, or null for `None`. */
  datatype Value = Null | Str(text: string)

  datatype Entry = Entry(key: string, value: Value)

  ghost predicate DistinctKeys(entries: seq<Entry>) {
    forall i, j :: 0 <= i < j < |entries| ==> entries[i].key != entries[j].key
  }

  type Dict = d: seq<Entry> | DistinctKeys(d) witness []

  /** The keys in insertion order. */
  function Keys(d: seq<Entry>): (ks: seq<string>)
    ensures |ks| == |d|
    ensures forall i :: 0 <= i < |d| ==> ks[i] == d[i].key
  {
    seq(|d|, i requires 0 <= i < |d| => d[i].key)
  }

  /** Where `k` sits in `d`, if anywhere. */
  function Find(d: seq<Entry>, k: string): (r: Option<nat>)
    ensures r.None? <==> forall i :: 0 <= i < |d| ==> d[i].key != k
    ensures r.Some? ==> r.value < |d| && d[r.value].key == k
    decreases |d|
  {
    if |d| == 0 then None
    else if d[|d| - 1].key == k then Some(|d| - 1)
    else Find(d[..|d| - 1], k)
  }

  /** `d.get(k)`: the value stored under `k`, or None when `k` is absent. */
  function Get(d: Dict, k: string): (r: Option<Value>)
    ensures r.None? <==> forall i :: 0 <= i < |d| ==> d[i].key != k
    ensures forall i :: 0 <= i < |d| && d[i].key == k ==> r == Some(d[i].value)
  {
    match Find(d, k)
    case None => None
    case Some(i) => Some(d[i].value)
  }

  /** `d[k] = v`: a key already present keeps its place and takes the new
      value; a new key goes last. */
  function Insert(d: Dict, k: string, v: Value): (r: Dict)
    ensures Get(r, k) == Some(v)
    ensures forall k' :: k' != k ==> Get(r, k') == Get(d, k')
    ensures Keys(r) == if Get(d, k).Some? then Keys(d) else Keys(d) + [k]
  {
    match Find(d, k)
    case None =>
      var r := d + [Entry(k, v)];
      assert Keys(r) == Keys(d) + [k];
      r
    case Some(i) =>
      var r := d[i := Entry(k, v)];
      assert Keys(r) == Keys(d);
      r
  }

  /** A key of the first part of a dictionary is looked up there. */
  lemma GetBefore(a: Dict, b: Dict)
    requires DistinctKeys(a + b)
    ensures forall k :: Get(a, k).Some? ==> Get(a + b, k) == Get(a, k)
  {
    var d: Dict := a + b;
    forall k | Get(a, k).Some? ensures Get(d, k) == Get(a, k) {
      var i :| 0 <= i < |a| && a[i].key == k;
      assert d[i] == a[i];
    }
  }

  /** A key of the second part of a dictionary is looked up there. */
  lemma GetAfter(a: Dict, b: Dict)
    requires DistinctKeys(a + b)
    ensures forall k :: Get(b, k).Some? ==> Get(a + b, k) == Get(b, k)
  {
    var d: Dict := a + b;
    forall k | Get(b, k).Some? ensures Get(d, k) == Get(b, k) {
      var i :| 0 <= i < |b| && b[i].key == k;
      assert d[|a| + i] == b[i];
    }
  }

  /** A lookup in a non-empty dictionary: its last entry, or the rest. */
  lemma GetLast(e: Dict)
    requires |e| > 0
    ensures forall k :: Get(e, k) == if k == e[|e| - 1].key then Some(e[|e| - 1].value) else Get(e[..|e| - 1], k)
  {
    var n := |e| - 1;
    forall k ensures Get(e, k) == if k == e[n].key then Some(e[n].value) else Get(e[..n], k) {
      if k != e[n].key {
        assert forall i :: 0 <= i < n ==> e[..n][i] == e[i];
      }
    }
  }

  /** Inserting the last entry of `e` into `{**d, **e[..n]}` gives
      `{**d, **e}`. */
  lemma UpdateLast(d: Dict, e: Dict, r: Dict)
    requires |e| > 0
    requires forall k :: Get(r, k) == if Get(e[..|e| - 1], k).Some? then Get(e[..|e| - 1], k) else Get(d, k)
    ensures forall k :: (Get(Insert(r, e[|e| - 1].key, e[|e| - 1].value), k)
      == if Get(e, k).Some? then Get(e, k) else Get(d, k))
  {
    GetLast(e);
  }

  /** Inserting a key that is absent appends it. */
  lemma InsertNew(d: Dict, k: string, v: Value)
    requires Get(d, k).None?
    ensures DistinctKeys(d + [Entry(k, v)])
    ensures Insert(d, k, v) == d + [Entry(k, v)]
  {
  }

  /** `{**d, **e}`: the entries of `e` inserted into `d` one by one, in
      order. A key of `e` takes `e`'s value; every other key keeps `d`'s. */
  function Update(d: Dict, e: Dict): (r: Dict)
    ensures forall k :: Get(r, k) == if Get(e, k).Some? then Get(e, k) else Get(d, k)
    decreases |e|
  {
    if |e| == 0 then d
    else
      var n := |e| - 1;
      var r := Update(d, e[..n]);
      UpdateLast(d, e, r);
      Insert(r, e[n].key, e[n].value)
  }

  /** When no key of `e` is in `d`, `{**d, **e}` lists `d`'s entries and then
      `e`'s, with nothing overwritten. */
  lemma {:induction false} UpdateDisjoint(d: Dict, e: Dict)
    requires forall i, j :: 0 <= i < |d| && 0 <= j < |e| ==> d[i].key != e[j].key
    ensures DistinctKeys(d + e)
    ensures Update(d, e) == d + e
    decreases |e|
  {
    if |e| == 0 {
      assert d + e == d;
    } else {
      var n := |e| - 1;
      assert forall j :: 0 <= j < n ==> e[..n][j] == e[j];
      UpdateDisjoint(d, e[..n]);
      var prefix: Dict := d + e[..n];
      LastKeyNew(d, e, prefix);
      InsertNew(prefix, e[n].key, e[n].value);
      SplitLast(d, e);
    }
  }

  /** Under disjoint keys, the last key of `e` is in neither `d` nor the
      rest of `e`. */
  lemma LastKeyNew(d: Dict, e: Dict, prefix: Dict)
    requires |e| > 0 && prefix == d + e[..|e| - 1]
    requires forall i, j :: 0 <= i < |d| && 0 <= j < |e| ==> d[i].key != e[j].key
    ensures Get(prefix, e[|e| - 1].key).None?
  {
    var n := |e| - 1;
    forall i | 0 <= i < |prefix| ensures prefix[i].key != e[n].key {
      if i >= |d| {
        assert prefix[i] == e[i - |d|];
      }
    }
  }

  lemma SplitLast<T>(a: seq<T>, e: seq<T>)
    requires |e| > 0
    ensures a + e[..|e| - 1] + [e[|e| - 1]] == a + e
  {
    assert e == e[..|e| - 1] + [e[|e| - 1]];
  }
}
