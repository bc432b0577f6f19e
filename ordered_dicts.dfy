/**
 * Python dictionaries as the sequence of their entries in insertion order.
 * Assigning to a present key keeps its position; a new key goes at the end;
 * `popitem()` removes the last entry; `{**a, **b}` copies `a` and then assigns
 * every entry of `b` in turn.
 */
module OrderedDicts {
  import opened Results

  type Dict<K, V> = seq<(K, V)>

  function Keys<K, V>(d: Dict<K, V>): (ks: seq<K>)
    ensures |ks| == |d| && forall i :: 0 <= i < |d| ==> ks[i] == d[i].0
  {
    seq(|d|, i requires 0 <= i < |d| => d[i].0)
  }

  function Values<K, V>(d: Dict<K, V>): (vs: seq<V>)
    ensures |vs| == |d| && forall i :: 0 <= i < |d| ==> vs[i] == d[i].1
  {
    seq(|d|, i requires 0 <= i < |d| => d[i].1)
  }

  /** Every key appears once, as in any Python dict. */
  predicate UniqueKeys<K(==), V>(d: Dict<K, V>)
  {
    forall i, j :: 0 <= i < j < |d| ==> d[i].0 != d[j].0
  }

  /** The position of key `k` in `d`, if it is there. */
  function IndexOfKey<K(==), V>(d: Dict<K, V>, k: K): (r: Option<nat>)
    ensures r.Some? ==> r.value < |d| && d[r.value].0 == k
                        && forall j :: 0 <= j < r.value ==> d[j].0 != k
    ensures r.None? ==> forall j :: 0 <= j < |d| ==> d[j].0 != k
  {
    if d == [] then None
    else if d[0].0 == k then Some(0)
    else match IndexOfKey(d[1..], k)
      case None => None
      case Some(j) => Some(j + 1)
  }

  /** `list(d.values()).index(v)`: the first position holding the value `v`, if any. */
  function IndexOfValue<K, V(==)>(d: Dict<K, V>, v: V): (r: Option<nat>)
    ensures r.Some? ==> r.value < |d| && d[r.value].1 == v
                        && forall j :: 0 <= j < r.value ==> d[j].1 != v
    ensures r.None? ==> forall j :: 0 <= j < |d| ==> d[j].1 != v
  {
    if d == [] then None
    else if d[0].1 == v then Some(0)
    else match IndexOfValue(d[1..], v)
      case None => None
      case Some(j) => Some(j + 1)
  }

  /** `d[k] = v`: a present key keeps its place and takes the new value; a new key goes at the end. */
  function Put<K(==), V>(d: Dict<K, V>, k: K, v: V): Dict<K, V>
  {
    match IndexOfKey(d, k)
    case None => d + [(k, v)]
    case Some(i) => d[i := (k, v)]
  }

  /** Assigning into a dictionary keeps its keys distinct. */
  lemma PutUnique<K, V>(d: Dict<K, V>, k: K, v: V)
    requires UniqueKeys(d)
    ensures UniqueKeys(Put(d, k, v))
  {
    var r := Put(d, k, v);
    if IndexOfKey(d, k).None? {
      assert forall i :: 0 <= i < |d| ==> r[i] == d[i];
    }
  }

  /** `{**a, **b}`: a copy of `a` into which every entry of `b` is assigned in order. */
  function Merge<K(==), V>(a: Dict<K, V>, b: Dict<K, V>): Dict<K, V>
    decreases |b|
  {
    if b == [] then a else Merge(Put(a, b[0].0, b[0].1), b[1..])
  }

  /** The entry at `i` taken out and re-inserted at the front (`l.insert(0, l.pop(i))`). */
  function MoveToFront<K(==), V>(d: Dict<K, V>, i: nat): (r: Dict<K, V>)
    requires i < |d|
    ensures |r| == |d| && r[0] == d[i]
    ensures forall j :: 0 < j <= i ==> r[j] == d[j - 1]
    ensures forall j :: i < j < |d| ==> r[j] == d[j]
    ensures UniqueKeys(d) ==> UniqueKeys(r)
  {
    var r := [d[i]] + d[..i] + d[i + 1..];
    assert forall j :: 0 <= j < |r| ==> r[j] == d[if j == 0 then i else if j <= i then j - 1 else j];
    r
  }

  /** Moving an entry to the front loses and adds nothing. */
  lemma MoveToFrontPermutes<K, V>(d: Dict<K, V>, i: nat)
    requires i < |d|
    ensures multiset(MoveToFront(d, i)) == multiset(d)
  {
    assert d == d[..i] + [d[i]] + d[i + 1..];
    assert MoveToFront(d, i) == [d[i]] + d[..i] + d[i + 1..];
  }

  /** The dictionary as a map: for a repeated key the last entry wins. */
  function ToMap<K(==), V>(d: Dict<K, V>): map<K, V>
    decreases |d|
  {
    if d == [] then map[] else ToMap(d[..|d| - 1])[d[|d| - 1].0 := d[|d| - 1].1]
  }

  /** The keys of the map are the keys of the entries. */
  lemma {:induction false} ToMapKeys<K, V>(d: Dict<K, V>)
    ensures forall k :: k in ToMap(d) <==> exists i :: 0 <= i < |d| && d[i].0 == k
    decreases |d|
  {
    if d != [] {
      var init := d[..|d| - 1];
      ToMapKeys(init);
      assert forall i :: 0 <= i < |init| ==> init[i] == d[i];
      forall k | exists i :: 0 <= i < |d| && d[i].0 == k ensures k in ToMap(d) {
        var i :| 0 <= i < |d| && d[i].0 == k;
        if i < |init| {
          assert init[i].0 == k;
        }
      }
    }
  }

  /** The value a key gets in `ToMap` is the one of its last entry. */
  lemma {:induction false} ToMapLastWins<K, V>(d: Dict<K, V>, i: nat)
    requires i < |d| && forall j :: i < j < |d| ==> d[j].0 != d[i].0
    ensures d[i].0 in ToMap(d) && ToMap(d)[d[i].0] == d[i].1
    decreases |d|
  {
    if i < |d| - 1 {
      var init := d[..|d| - 1];
      assert init[i] == d[i];
      assert forall j :: i < j < |init| ==> init[j] == d[j];
      ToMapLastWins(init, i);
    }
  }

  /** In a dictionary every entry is the last one with its key. */
  lemma ToMapEntries<K, V>(d: Dict<K, V>)
    requires UniqueKeys(d)
    ensures forall i :: 0 <= i < |d| ==> d[i].0 in ToMap(d) && ToMap(d)[d[i].0] == d[i].1
  {
    forall i | 0 <= i < |d| ensures d[i].0 in ToMap(d) && ToMap(d)[d[i].0] == d[i].1 {
      ToMapLastWins(d, i);
    }
  }

  /** Replacing the value of the entry at `i` updates the map at that key. */
  lemma {:induction false} ToMapUpdateAt<K, V>(d: Dict<K, V>, i: nat, v: V)
    requires UniqueKeys(d) && i < |d|
    ensures ToMap(d[i := (d[i].0, v)]) == ToMap(d)[d[i].0 := v]
    decreases |d|
  {
    var n := |d|;
    var r := d[i := (d[i].0, v)];
    var init := d[..n - 1];
    if i == n - 1 {
      assert r[..n - 1] == init;
    } else {
      assert r[..n - 1] == init[i := (init[i].0, v)];
      assert r[n - 1] == d[n - 1];
      UniquePrefix(d, n - 1);
      ToMapUpdateAt(init, i, v);
      assert d[n - 1].0 != d[i].0;
    }
  }

  /** Assignment into a dictionary is assignment into its map. */
  lemma ToMapPut<K, V>(d: Dict<K, V>, k: K, v: V)
    requires UniqueKeys(d)
    ensures ToMap(Put(d, k, v)) == ToMap(d)[k := v]
  {
    match IndexOfKey(d, k)
    case None =>
      assert (d + [(k, v)])[..|d|] == d;
    case Some(i) =>
      ToMapUpdateAt(d, i, v);
  }

  /** Merging in two halves is merging in one go. */
  lemma {:induction false} MergeConcat<K, V>(a: Dict<K, V>, x: Dict<K, V>, y: Dict<K, V>)
    ensures Merge(a, x + y) == Merge(Merge(a, x), y)
    decreases |x|
  {
    if x == [] {
      assert x + y == y;
    } else {
      assert (x + y)[0] == x[0] && (x + y)[1..] == x[1..] + y;
      MergeConcat(Put(a, x[0].0, x[0].1), x[1..], y);
    }
  }

  /** Merging entries whose keys are all new appends them. */
  lemma {:induction false} MergeFresh<K, V>(a: Dict<K, V>, b: Dict<K, V>)
    requires UniqueKeys(a + b)
    ensures Merge(a, b) == a + b
    decreases |b|
  {
    if b != [] {
      assert (a + b)[|a|] == b[0];
      assert forall j :: 0 <= j < |a| ==> (a + b)[j] == a[j];
      assert IndexOfKey(a, b[0].0).None?;
      assert a + [b[0]] + b[1..] == a + b;
      MergeFresh(a + [b[0]], b[1..]);
    }
  }

  /** `dict(items)` of entries with distinct keys is those entries, in order. */
  lemma FromItemsUnique<K, V>(items: Dict<K, V>)
    requires UniqueKeys(items)
    ensures Merge([], items) == items
  {
    assert [] + items == items;
    MergeFresh([], items);
  }

  /** A key that is not among the keys of a dictionary can go in front of it. */
  lemma UniqueCons<K, V>(x: (K, V), d: Dict<K, V>)
    requires UniqueKeys(d) && forall j :: 0 <= j < |d| ==> d[j].0 != x.0
    ensures UniqueKeys([x] + d)
  {
    assert forall j :: 0 < j <= |d| ==> ([x] + d)[j] == d[j - 1];
  }

  /** Assigning to the key at the front of a dictionary replaces that front entry. */
  lemma PutFront<K, V>(x: (K, V), d: Dict<K, V>, y: (K, V))
    requires x.0 == y.0
    ensures Put([x] + d, y.0, y.1) == [y] + d
  {
    assert IndexOfKey([x] + d, y.0) == Some(0);
    assert ([x] + d)[0 := y] == [y] + d;
  }

  /** The entries of `b` before `j` as a dictionary of their own, with distinct keys none of which is `b[j]`'s. */
  lemma UniquePrefix<K, V>(b: Dict<K, V>, j: nat)
    requires UniqueKeys(b) && j < |b|
    ensures UniqueKeys(b[..j]) && forall i :: 0 <= i < j ==> b[..j][i].0 != b[j].0
  {
    var front := b[..j];
    assert forall i :: 0 <= i < j ==> front[i] == b[i];
  }

  /** `{**{k: v}, **b}` where `k` is first found at `j` in `b`. */
  lemma MergeSingleFrontPresent<K, V>(k: K, v: V, b: Dict<K, V>, j: nat)
    requires UniqueKeys(b) && IndexOfKey(b, k) == Some(j)
    ensures Merge([(k, v)], b) == MoveToFront(b, j)
  {
    var front, back := b[..j], b[j + 1..];
    var rest := [b[j]] + back;
    assert b == front + rest;
    MergeConcat([(k, v)], front, rest);
    UniquePrefix(b, j);
    UniqueCons((k, v), front);
    MergeFresh([(k, v)], front);
    assert rest[0] == b[j] && rest[1..] == back;
    PutFront((k, v), front, b[j]);
    assert Merge([(k, v)] + front, rest) == Merge([b[j]] + front, back);
    assert [b[j]] + front + back == MoveToFront(b, j);
    MergeFresh([b[j]] + front, back);
  }

  /**
   * `{**{k: v}, **b}`: a new key goes in front of `b`; a key already in `b`
   * moves to the front keeping the value it had in `b`, and `v` is dropped.
   */
  lemma MergeSingleFront<K, V>(k: K, v: V, b: Dict<K, V>)
    requires UniqueKeys(b)
    ensures IndexOfKey(b, k).None? ==> Merge([(k, v)], b) == [(k, v)] + b
    ensures IndexOfKey(b, k).Some? ==> Merge([(k, v)], b) == MoveToFront(b, IndexOfKey(b, k).value)
  {
    match IndexOfKey(b, k)
    case None =>
      UniqueCons((k, v), b);
      MergeFresh([(k, v)], b);
    case Some(j) =>
      MergeSingleFrontPresent(k, v, b, j);
  }
}
