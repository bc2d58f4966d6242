/** Python's `dict` as the loader uses it: an insertion-ordered list of entries with distinct
    keys. Assigning to a present key keeps its place; a new key goes last. */
module Dicts {
  import opened Common

  type Dict<K, V> = seq<(K, V)>

  function Keys<K, V>(d: Dict<K, V>): (ks: seq<K>)
    ensures |ks| == |d|
    ensures forall i :: 0 <= i < |d| ==> ks[i] == d[i].0
  {
    if d == [] then [] else [d[0].0] + Keys(d[1..])
  }

  predicate UniqueKeys<K(==), V>(d: Dict<K, V>)
  {
    forall i, j :: 0 <= i < j < |d| ==> d[i].0 != d[j].0
  }

  /** `d.get(k)` */
  function Get<K(==), V>(d: Dict<K, V>, k: K): (r: Option<V>)
    ensures r.None? <==> k !in Keys(d)
    ensures r.Some? ==> exists i :: 0 <= i < |d| && d[i] == (k, r.value)
  {
    if d == [] then None
    else if d[0].0 == k then Some(d[0].1)
    else
      var r := Get(d[1..], k);
      assert r.Some? ==> exists i :: 0 <= i < |d[1..]| && d[1..][i] == (k, r.value);
      assert Keys(d) == [d[0].0] + Keys(d[1..]);
      r
  }

  /** `d[k] = v` */
  function Set<K(==), V>(d: Dict<K, V>, k: K, v: V): (r: Dict<K, V>)
    ensures k in Keys(d) ==> Keys(r) == Keys(d)
    ensures k !in Keys(d) ==> Keys(r) == Keys(d) + [k]
    ensures UniqueKeys(d) ==> UniqueKeys(r)
  {
    if d == [] then [(k, v)]
    else if d[0].0 == k then [(k, v)] + d[1..]
    else
      var t := Set(d[1..], k, v);
      assert Keys(d) == [d[0].0] + Keys(d[1..]);
      assert Keys([d[0]] + t) == [d[0].0] + Keys(t);
      if UniqueKeys(d) then
        HeadNotInTail(d);
        assert d[0].0 !in Keys(t);
        [d[0]] + t
      else [d[0]] + t
  }

  /** In a dictionary with distinct keys, the first key does not recur. */
  lemma HeadNotInTail<K, V>(d: Dict<K, V>)
    requires d != [] && UniqueKeys(d)
    ensures d[0].0 !in Keys(d[1..]) && UniqueKeys(d[1..])
  {
    forall j | 0 <= j < |d| - 1
      ensures Keys(d[1..])[j] != d[0].0
    {
      assert d[1..][j] == d[j + 1];
    }
  }

  /** After `d[k] = v`, `k` maps to `v` and every other key to what it mapped to before. */
  lemma {:induction false} GetSet<K, V>(d: Dict<K, V>, k: K, v: V, q: K)
    ensures Get(Set(d, k, v), q) == if q == k then Some(v) else Get(d, q)
    decreases |d|
  {
    if d != [] && d[0].0 != k {
      GetSet(d[1..], k, v, q);
      assert Set(d, k, v)[1..] == Set(d[1..], k, v);
    }
  }

  /** The dictionary built from the pairs of a JSON object, in order: a repeated key keeps
      its first place and its last value. */
  function FromPairs<K(==), V>(pairs: seq<(K, V)>): (d: Dict<K, V>)
    ensures UniqueKeys(d)
  {
    if pairs == [] then []
    else Set(FromPairs(pairs[..|pairs| - 1]), pairs[|pairs| - 1].0, pairs[|pairs| - 1].1)
  }

  /** A dictionary with distinct keys is its own pair list. */
  lemma {:induction false} FromPairsUnique<K, V>(d: Dict<K, V>)
    requires UniqueKeys(d)
    ensures FromPairs(d) == d
    decreases |d|
  {
    if d != [] {
      var init := d[..|d| - 1];
      assert UniqueKeys(init);
      FromPairsUnique(init);
      var last := d[|d| - 1];
      assert last.0 !in Keys(init) by {
        forall i | 0 <= i < |init|
          ensures Keys(init)[i] != last.0
        {
          assert init[i] == d[i];
        }
      }
      SetAppends(init, last.0, last.1);
      assert init + [last] == d;
    }
  }

  lemma {:induction false} SetAppends<K, V>(d: Dict<K, V>, k: K, v: V)
    requires k !in Keys(d)
    ensures Set(d, k, v) == d + [(k, v)]
    decreases |d|
  {
    if d != [] {
      assert Keys(d) == [d[0].0] + Keys(d[1..]);
      SetAppends(d[1..], k, v);
      assert [d[0]] + (d[1..] + [(k, v)]) == d + [(k, v)];
    }
  }

  /** No element of `s` occurs twice. */
  predicate NoRepeats<T(==)>(s: seq<T>)
  {
    forall i, j :: 0 <= i < j < |s| ==> s[i] != s[j]
  }

  /** A dictionary whose key list has no repeats has distinct keys. */
  lemma DistinctKeys<K, V>(d: Dict<K, V>)
    requires NoRepeats(Keys(d))
    ensures UniqueKeys(d)
  {
  }

  /** Two assignments of new, different keys append both entries in order. */
  lemma SetTwice<K, V>(d: Dict<K, V>, k0: K, v0: V, k1: K, v1: V)
    requires k0 !in Keys(d) && k1 !in Keys(d) && k0 != k1
    ensures Set(Set(d, k0, v0), k1, v1) == d + [(k0, v0), (k1, v1)]
  {
    SetAppends(d, k0, v0);
    SetAppends(d + [(k0, v0)], k1, v1);
  }

  /** Every entry after `d[k] = v` is either `(k, v)` or an entry of `d`. */
  lemma {:induction false} SetEntries<K, V>(d: Dict<K, V>, k: K, v: V)
    ensures forall e :: e in Set(d, k, v) ==> e == (k, v) || e in d
    decreases |d|
  {
    if d != [] && d[0].0 != k {
      SetEntries(d[1..], k, v);
      assert Set(d, k, v) == [d[0]] + Set(d[1..], k, v);
    }
  }

  /** In a dictionary with distinct keys, each entry is what its key looks up. */
  lemma {:induction false} GetAt<K, V>(d: Dict<K, V>, i: nat)
    requires UniqueKeys(d) && i < |d|
    ensures Get(d, d[i].0) == Some(d[i].1)
    decreases i
  {
    if i > 0 {
      assert d[1..][i - 1] == d[i];
      assert UniqueKeys(d[1..]);
      GetAt(d[1..], i - 1);
    }
  }

  /** A three-entry dictionary with distinct keys, and what each key looks up. */
  lemma Get3<K, V>(k0: K, k1: K, k2: K, v0: V, v1: V, v2: V)
    requires k0 != k1 && k0 != k2 && k1 != k2
    ensures var d := [(k0, v0), (k1, v1), (k2, v2)];
      UniqueKeys(d) && Get(d, k0) == Some(v0) && Get(d, k1) == Some(v1) && Get(d, k2) == Some(v2)
  {
    var d := [(k0, v0), (k1, v1), (k2, v2)];
    GetAt(d, 0);
    GetAt(d, 1);
    GetAt(d, 2);
  }

  /** `d.pop(k, None)`: the entry of `k` goes, the others keep their order. */
  function RemoveKey<K(==,!new), V>(d: Dict<K, V>, k: K): (r: Dict<K, V>)
    ensures k !in Keys(r)
    ensures forall q :: q in Keys(r) <==> q in Keys(d) && q != k
    ensures UniqueKeys(d) ==> UniqueKeys(r)
    ensures forall q :: q != k ==> Get(r, q) == Get(d, q)
  {
    if d == [] then []
    else
      var rest := RemoveKey(d[1..], k);
      assert Keys(d) == [d[0].0] + Keys(d[1..]);
      if d[0].0 == k then rest
      else
        var r := [d[0]] + rest;
        assert Keys(r) == [d[0].0] + Keys(rest);
        assert UniqueKeys(d) ==> UniqueKeys(r) by {
          if UniqueKeys(d) {
            assert d[0].0 !in Keys(d[1..]);
            assert UniqueKeys(d[1..]);
          }
        }
        r
  }

  // ----- keys in sorted order -----

  predicate KeysSorted<V>(d: Dict<string, V>)
  {
    forall i, j :: 0 <= i < j < |d| ==> TextLe(d[i].0, d[j].0)
  }

  /** Puts `e` before the first entry whose key is not smaller. */
  function InsertEntry<V>(e: (string, V), d: Dict<string, V>): (r: Dict<string, V>)
    ensures multiset(r) == multiset(d) + multiset{e}
  {
    if d == [] || TextLe(e.0, d[0].0) then [e] + d
    else
      assert d == [d[0]] + d[1..];
      [d[0]] + InsertEntry(e, d[1..])
  }

  /** The entries of `d` ordered by key, as `json.dump(d, sort_keys=True)` writes them. */
  function SortByKey<V>(d: Dict<string, V>): (r: Dict<string, V>)
    ensures multiset(r) == multiset(d)
  {
    if d == [] then []
    else
      assert d == [d[0]] + d[1..];
      InsertEntry(d[0], SortByKey(d[1..]))
  }

  /** An entry whose key is new, put in front of a dictionary with distinct keys, keeps the
      keys distinct. */
  lemma ConsUnique<V>(e: (string, V), d: Dict<string, V>)
    requires UniqueKeys(d) && e.0 !in Keys(d)
    ensures UniqueKeys([e] + d)
  {
    var r := [e] + d;
    forall i, j | 0 <= i < j < |r|
      ensures r[i].0 != r[j].0
    {
      if i == 0 {
        assert r[j].0 == Keys(d)[j - 1];
      }
    }
  }

  /** Inserting an entry with a new key adds that key and changes no other lookup. */
  lemma {:induction false} InsertEntryGet<V>(e: (string, V), d: Dict<string, V>, k: string)
    requires UniqueKeys(d) && e.0 !in Keys(d)
    ensures UniqueKeys(InsertEntry(e, d))
    ensures Get(InsertEntry(e, d), k) == if k == e.0 then Some(e.1) else Get(d, k)
    decreases |d|
  {
    if d == [] || TextLe(e.0, d[0].0) {
      ConsUnique(e, d);
    } else {
      HeadNotInTail(d);
      assert Keys(d) == [d[0].0] + Keys(d[1..]);
      var ins := InsertEntry(e, d[1..]);
      InsertEntryGet(e, d[1..], k);
      InsertEntryGet(e, d[1..], d[0].0);
      ConsUnique(d[0], ins);
    }
  }

  /** Sorting a dictionary with distinct keys keeps them distinct and changes no lookup. */
  lemma {:induction false} SortByKeyGet<V>(d: Dict<string, V>, k: string)
    requires UniqueKeys(d)
    ensures UniqueKeys(SortByKey(d))
    ensures Get(SortByKey(d), k) == Get(d, k)
    decreases |d|
  {
    if d != [] {
      HeadNotInTail(d);
      var rest := SortByKey(d[1..]);
      SortByKeyGet(d[1..], k);
      SortByKeyGet(d[1..], d[0].0);
      InsertEntryGet(d[0], rest, k);
    }
  }

  /** An entry no greater than every entry of a sorted dictionary, put in front, keeps it
      sorted. */
  lemma ConsSortedKeys<V>(e: (string, V), d: Dict<string, V>)
    requires KeysSorted(d)
    requires forall j :: 0 <= j < |d| ==> TextLe(e.0, d[j].0)
    ensures KeysSorted([e] + d)
  {
    var r := [e] + d;
    forall i, j | 0 <= i < j < |r|
      ensures TextLe(r[i].0, r[j].0)
    {
      if i > 0 {
        assert r[i] == d[i - 1] && r[j] == d[j - 1];
      }
    }
  }

  lemma {:induction false} InsertEntrySorted<V>(e: (string, V), d: Dict<string, V>)
    requires KeysSorted(d)
    ensures KeysSorted(InsertEntry(e, d))
    ensures forall x :: x in InsertEntry(e, d) ==> x == e || x in d
    decreases |d|
  {
    if d == [] || TextLe(e.0, d[0].0) {
      forall j | 0 <= j < |d|
        ensures TextLe(e.0, d[j].0)
      {
        if j > 0 {
          TextLeTransitive(e.0, d[0].0, d[j].0);
        }
      }
      ConsSortedKeys(e, d);
    } else {
      var rest := InsertEntry(e, d[1..]);
      InsertEntrySorted(e, d[1..]);
      TextLeTotal(e.0, d[0].0);
      forall j | 0 <= j < |rest|
        ensures TextLe(d[0].0, rest[j].0)
      {
        assert rest[j] in rest;
        if rest[j] != e {
          var q :| 0 <= q < |d[1..]| && d[1..][q] == rest[j];
          assert d[q + 1] == rest[j];
        }
      }
      ConsSortedKeys(d[0], rest);
    }
  }

  lemma {:induction false} SortByKeySorted<V>(d: Dict<string, V>)
    ensures KeysSorted(SortByKey(d))
    decreases |d|
  {
    if d != [] {
      SortByKeySorted(d[1..]);
      InsertEntrySorted(d[0], SortByKey(d[1..]));
    }
  }
}
