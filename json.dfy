/** JSON values as `json.load` returns them and `json.dump` takes them, and the outcome of
    reading a state file. The text form (indentation, `sort_keys`, escaping) is not modelled:
    a file holds a JSON value or something that is not JSON. */
module JsonValues {
  import opened Common
  import opened Dicts

  /** Numbers are exact (`real`); an object keeps its pairs in file order. */
  datatype Json =
    | JNull
    | JBool(b: bool)
    | JNum(n: real)
    | JString(s: string)
    | JArray(items: seq<Json>)
    | JObject(pairs: seq<(string, Json)>)

  /** What `json.load(open(file_name))` gives: `FileNotFoundError`, `JSONDecodeError`, or a
      value. */
  datatype FileContent = NoFile | NotJson | Parsed(value: Json)

  /** `obj.get(key)` on the dictionary `json.load` builds from the pairs of an object. */
  function Member(pairs: seq<(string, Json)>, key: string): Option<Json>
  {
    Get(FromPairs(pairs), key)
  }

  /** A number that Python reads as an `int`. */
  predicate IsInteger(r: real)
  {
    r.Floor as real == r
  }

  /** `json.dump` of an `int` */
  function Int(i: int): (j: Json)
    ensures j.JNum? && IsInteger(j.n) && j.n.Floor == i
  {
    JNum(i as real)
  }

  /** A JSON object written from pairs with distinct keys reads back member by member. */
  lemma MemberOfUnique(pairs: seq<(string, Json)>, key: string)
    requires UniqueKeys(pairs)
    ensures Member(pairs, key) == Get(pairs, key)
  {
    FromPairsUnique(pairs);
  }

  /** A member of an object written with distinct keys reads back as written. */
  lemma MemberAt(pairs: seq<(string, Json)>, i: nat)
    requires UniqueKeys(pairs) && i < |pairs|
    ensures Member(pairs, pairs[i].0) == Some(pairs[i].1)
  {
    FromPairsUnique(pairs);
    GetAt(pairs, i);
  }

  /** A key that was not written reads back as absent. */
  lemma MemberAbsent(pairs: seq<(string, Json)>, key: string)
    requires UniqueKeys(pairs) && key !in Keys(pairs)
    ensures Member(pairs, key) == None
  {
    FromPairsUnique(pairs);
  }

  /** The members of a two-member object with distinct keys. */
  lemma Members2(k0: string, k1: string, v0: Json, v1: Json)
    requires k0 != k1
    ensures var p := [(k0, v0), (k1, v1)];
      Member(p, k0) == Some(v0) && Member(p, k1) == Some(v1)
  {
    var p := [(k0, v0), (k1, v1)];
    assert UniqueKeys(p);
    MemberAt(p, 0);
    MemberAt(p, 1);
  }

  /** The members of a three-member object with distinct keys. */
  lemma Members3(k0: string, k1: string, k2: string, v0: Json, v1: Json, v2: Json)
    requires k0 != k1 && k0 != k2 && k1 != k2
    ensures var p := [(k0, v0), (k1, v1), (k2, v2)];
      Member(p, k0) == Some(v0) && Member(p, k1) == Some(v1) && Member(p, k2) == Some(v2)
  {
    var p := [(k0, v0), (k1, v1), (k2, v2)];
    assert UniqueKeys(p);
    MemberAt(p, 0);
    MemberAt(p, 1);
    MemberAt(p, 2);
  }

  /** A key a three-member object with distinct keys lacks. */
  lemma Absent3(k0: string, k1: string, k2: string, v0: Json, v1: Json, v2: Json, other: string)
    requires k0 != k1 && k0 != k2 && k1 != k2
    requires other != k0 && other != k1 && other != k2
    ensures Member([(k0, v0), (k1, v1), (k2, v2)], other) == None
  {
    var p := [(k0, v0), (k1, v1), (k2, v2)];
    assert UniqueKeys(p);
    assert Keys(p) == [k0, k1, k2];
    MemberAbsent(p, other);
  }

  /** The members of a four-member object with distinct keys. */
  lemma Members4(k0: string, k1: string, k2: string, k3: string, v0: Json, v1: Json, v2: Json, v3: Json)
    requires k0 != k1 && k0 != k2 && k0 != k3 && k1 != k2 && k1 != k3 && k2 != k3
    ensures var p := [(k0, v0), (k1, v1), (k2, v2), (k3, v3)];
      Member(p, k0) == Some(v0) && Member(p, k1) == Some(v1) && Member(p, k2) == Some(v2) &&
      Member(p, k3) == Some(v3)
  {
    var p := [(k0, v0), (k1, v1), (k2, v2), (k3, v3)];
    assert UniqueKeys(p);
    MemberAt(p, 0);
    MemberAt(p, 1);
    MemberAt(p, 2);
    MemberAt(p, 3);
  }
}
