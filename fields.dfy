/** The field catalogue: the columns a source can export (`fields/field.py`, the helpers of
    `fields/helpers.py` and the column types of `fields/db_types.py`), a source's fields in
    load-name order (`fields/source.py`), and the selection a `FieldsCollection` makes of them
    (`fields/collection.py`, and the older `fields.py` that sorts the catalogue first).

    A converter is a function of the data frame; a field carries only the name of its
    converter. */
module FieldCatalogue {
  import opened Common
  import opened UpdaterPipeline
  import opened LegacyUpdating

  /** `Field`: its name in the export, its column name and type in the database, whether it
      is always loaded, whether the loader computes it instead of fetching it, and its
      converter. */
  datatype Field = Field(
    loadName: string,
    dbName: string,
    dbType: string,
    required: bool,
    generated: bool,
    converter: Option<string>)

  // ----- fields/db_types.py -----

  function DbString(name: string): (string, string) { (name, "String") }
  function DbInt16(name: string): (string, string) { (name, "Int16") }
  function DbInt64(name: string): (string, string) { (name, "Int64") }
  function DbUInt64(name: string): (string, string) { (name, "UInt64") }
  function DbDate(name: string): (string, string) { (name, "Date") }
  function DbDateTime(name: string): (string, string) { (name, "DateTime") }
  function DbBool(name: string): (string, string) { (name, "UInt8") }

  /** The integer column types, booleans among them, are the ones whose empty cells
      `_ensure_types` fills with 0; strings, dates and date-times are not. */
  lemma IntegerTypesFilled(name: string)
    ensures Contains(DbInt16(name).1, "Int") && Contains(DbInt64(name).1, "Int")
    ensures Contains(DbUInt64(name).1, "Int") && Contains(DbBool(name).1, "Int")
    ensures !Contains(DbString(name).1, "Int") && !Contains(DbDate(name).1, "Int")
    ensures !Contains(DbDateTime(name).1, "Int")
  {
    assert MatchesAt("Int16", "Int", 0);
    assert MatchesAt("Int64", "Int", 0);
    assert MatchesAt("UInt64", "Int", 1);
    assert MatchesAt("UInt8", "Int", 1);
    NoCapitalI("String");
    NoCapitalI("Date");
    NoCapitalI("DateTime");
  }

  /** A text without the letter `I` does not contain `Int`. */
  lemma NoCapitalI(text: string)
    requires forall k :: 0 <= k < |text| ==> text[k] != 'I'
    ensures !Contains(text, "Int")
  {
    forall i | 0 <= i <= |text| - 3
      ensures !MatchesAt(text, "Int", i)
    {
      assert text[i..i + 3][0] == text[i] != 'I';
    }
  }

  // ----- fields/helpers.py -----

  /** `field(load_name, db, required, generated, converter)` */
  function MakeField(loadName: string, db: (string, string), required: bool, generated: bool,
                     converter: Option<string>): Field
  {
    Field(loadName, db.0, db.1, required, generated, converter)
  }

  /** `system_defined`: always loaded, computed by the loader, with no converter. */
  function SystemDefined(loadName: string, db: (string, string)): (f: Field)
    ensures f.required && f.generated && f.converter.None?
    ensures f.loadName == loadName && (f.dbName, f.dbType) == db
  {
    MakeField(loadName, db, true, true, None)
  }

  /** When `generated` is not given, a field is generated exactly when it has a converter. */
  function GeneratedOr(generated: Option<bool>, converter: Option<string>): (g: bool)
    ensures generated.None? ==> (g <==> converter.Some?)
    ensures generated.Some? ==> g == generated.value
  {
    match generated
    case None => converter.Some?
    case Some(g) => g
  }

  /** `required` */
  function Required(loadName: string, db: (string, string), converter: Option<string>,
                    generated: Option<bool>): (f: Field)
    ensures f.required && f.converter == converter
    ensures generated.None? ==> (f.generated <==> converter.Some?)
    ensures f.loadName == loadName && (f.dbName, f.dbType) == db
  {
    MakeField(loadName, db, true, GeneratedOr(generated, converter), converter)
  }

  /** `optional` */
  function OptionalField(loadName: string, db: (string, string), converter: Option<string>,
                         generated: Option<bool>): (f: Field)
    ensures !f.required && f.converter == converter
    ensures generated.None? ==> (f.generated <==> converter.Some?)
    ensures f.loadName == loadName && (f.dbName, f.dbType) == db
  {
    MakeField(loadName, db, false, GeneratedOr(generated, converter), converter)
  }

  // ----- ordering by load name -----

  predicate SortedByName(fs: seq<Field>)
  {
    forall i, j :: 0 <= i < j < |fs| ==> TextLe(fs[i].loadName, fs[j].loadName)
  }

  /** Puts `x` before the first field whose name is not smaller, so before every field of
      its own name. */
  function Insert(x: Field, fs: seq<Field>): (r: seq<Field>)
    ensures multiset(r) == multiset(fs) + multiset{x}
  {
    if fs == [] || TextLe(x.loadName, fs[0].loadName) then [x] + fs
    else
      assert fs == [fs[0]] + fs[1..];
      [fs[0]] + Insert(x, fs[1..])
  }

  /** `sorted(fields, key=lambda f: f.load_name)`, stable as Python's sort is. */
  function SortByName(fs: seq<Field>): (r: seq<Field>)
    ensures multiset(r) == multiset(fs)
  {
    if fs == [] then []
    else
      assert fs == [fs[0]] + fs[1..];
      Insert(fs[0], SortByName(fs[1..]))
  }

  lemma {:induction false} InsertSorted(x: Field, fs: seq<Field>)
    requires SortedByName(fs)
    ensures SortedByName(Insert(x, fs))
    decreases |fs|
  {
    if fs != [] && TextLe(x.loadName, fs[0].loadName) {
      forall j | 0 <= j < |fs|
        ensures TextLe(x.loadName, fs[j].loadName)
      {
        if j > 0 {
          TextLeTransitive(x.loadName, fs[0].loadName, fs[j].loadName);
        }
      }
      ConsSorted(x, fs);
    } else if fs != [] {
      var rest := Insert(x, fs[1..]);
      InsertSorted(x, fs[1..]);
      TextLeTotal(x.loadName, fs[0].loadName);
      HeadBelowRest(x, fs, rest);
      ConsSorted(fs[0], rest);
    }
  }

  /** A field no greater than every field of a sorted list, put in front, keeps it sorted. */
  lemma ConsSorted(h: Field, fs: seq<Field>)
    requires SortedByName(fs)
    requires forall j :: 0 <= j < |fs| ==> TextLe(h.loadName, fs[j].loadName)
    ensures SortedByName([h] + fs)
  {
    var r := [h] + fs;
    forall i, j | 0 <= i < j < |r|
      ensures TextLe(r[i].loadName, r[j].loadName)
    {
      assert r[j] == fs[j - 1];
      if i > 0 {
        assert r[i] == fs[i - 1];
      }
    }
  }

  /** The head of a sorted list is no greater than the rest with `x` added, when it is no
      greater than `x`. */
  lemma HeadBelowRest(x: Field, fs: seq<Field>, rest: seq<Field>)
    requires fs != [] && SortedByName(fs) && TextLe(fs[0].loadName, x.loadName)
    requires multiset(rest) == multiset(fs[1..]) + multiset{x}
    ensures forall j :: 0 <= j < |rest| ==> TextLe(fs[0].loadName, rest[j].loadName)
  {
    forall j | 0 <= j < |rest|
      ensures TextLe(fs[0].loadName, rest[j].loadName)
    {
      assert rest[j] in multiset(rest);
      if rest[j] != x {
        assert rest[j] in multiset(fs[1..]);
        var m :| 0 <= m < |fs[1..]| && fs[1..][m] == rest[j];
        assert fs[m + 1] == rest[j];
      }
    }
  }

  /** The sorted fields are in load-name order. */
  lemma {:induction false} SortByNameSorted(fs: seq<Field>)
    ensures SortedByName(SortByName(fs))
  {
    if fs != [] {
      SortByNameSorted(fs[1..]);
      InsertSorted(fs[0], SortByName(fs[1..]));
    }
  }

  /** The fields of one name, in order. */
  function Named(fs: seq<Field>, name: string): (r: seq<Field>)
  {
    if fs == [] then []
    else (if fs[0].loadName == name then [fs[0]] else []) + Named(fs[1..], name)
  }

  lemma {:induction false} InsertNamed(x: Field, fs: seq<Field>, name: string)
    ensures Named(Insert(x, fs), name) == (if x.loadName == name then [x] else []) + Named(fs, name)
    decreases |fs|
  {
    var mine: seq<Field> := if x.loadName == name then [x] else [];
    if fs == [] || TextLe(x.loadName, fs[0].loadName) {
      assert ([x] + fs)[1..] == fs;
    } else {
      InsertNamed(x, fs[1..], name);
      assert ([fs[0]] + Insert(x, fs[1..]))[1..] == Insert(x, fs[1..]);
      if x.loadName == name && fs[0].loadName == name {
        TextLeReflexive(name);
      }
      var head: seq<Field> := if fs[0].loadName == name then [fs[0]] else [];
      assert head + (mine + Named(fs[1..], name)) == mine + (head + Named(fs[1..], name));
    }
  }

  /** The sort is stable: the fields of each name keep their relative order. */
  lemma {:induction false} SortByNameStable(fs: seq<Field>, name: string)
    ensures Named(SortByName(fs), name) == Named(fs, name)
  {
    if fs != [] {
      SortByNameStable(fs[1..], name);
      InsertNamed(fs[0], SortByName(fs[1..]), name);
    }
  }

  // ----- fields/source.py -----

  /** `Source`: an export table, its database table, its date and sampling columns, its key
      columns, whether it ignores dates, and its fields in load-name order. */
  datatype Source = Source(
    loadName: string,
    dbName: string,
    dateFieldName: string,
    samplingFieldName: Option<string>,
    keyFieldNames: seq<string>,
    dateIgnored: bool,
    fields: seq<Field>)

  /** The constructor: its fields are the given ones, sorted by load name, stably. */
  function NewSource(loadName: string, dbName: string, dateFieldName: string,
                     samplingFieldName: Option<string>, keyFieldNames: seq<string>,
                     dateIgnored: bool, fields: seq<Field>): (s: Source)
    ensures SortedByName(s.fields) && multiset(s.fields) == multiset(fields)
    ensures forall name :: Named(s.fields, name) == Named(fields, name)
    ensures s.loadName == loadName && s.dbName == dbName && s.dateFieldName == dateFieldName
    ensures s.samplingFieldName == samplingFieldName && s.keyFieldNames == keyFieldNames
    ensures s.dateIgnored == dateIgnored
  {
    SortByNameSorted(fields);
    forall name
      ensures Named(SortByName(fields), name) == Named(fields, name)
    {
      SortByNameStable(fields, name);
    }
    Source(loadName, dbName, dateFieldName, samplingFieldName, keyFieldNames, dateIgnored,
           SortByName(fields))
  }

  // ----- fields/collection.py -----

  /** The fields a collection keeps: the required ones and the requested ones, in catalogue
      order. */
  function Selected(catalogue: seq<Field>, requested: seq<string>): (r: seq<Field>)
    ensures forall f :: f in r <==> f in catalogue && (f.required || f.loadName in requested)
  {
    if catalogue == [] then []
    else
      var init := Selected(catalogue[..|catalogue| - 1], requested);
      var last := catalogue[|catalogue| - 1];
      assert forall f :: f in catalogue <==> f in catalogue[..|catalogue| - 1] || f == last;
      if last.required || last.loadName in requested then init + [last] else init
  }

  /** The selection keeps catalogue order: selecting from a prefix of the catalogue gives a
      prefix of the selection. */
  lemma {:induction false} SelectedPrefix(catalogue: seq<Field>, requested: seq<string>, k: nat)
    requires k <= |catalogue|
    ensures Selected(catalogue[..k], requested) <= Selected(catalogue, requested)
    decreases |catalogue|
  {
    if k < |catalogue| {
      var init := catalogue[..|catalogue| - 1];
      assert init[..k] == catalogue[..k];
      SelectedPrefix(init, requested, k);
    } else {
      assert catalogue[..k] == catalogue;
    }
  }

  /** The selected fields named among `keyNames`, in order. */
  function NamedIn(fs: seq<Field>, keyNames: seq<string>): (r: seq<Field>)
    ensures forall f :: f in r <==> f in fs && f.loadName in keyNames
  {
    if fs == [] then []
    else
      var init := NamedIn(fs[..|fs| - 1], keyNames);
      var last := fs[|fs| - 1];
      assert forall f :: f in fs <==> f in fs[..|fs| - 1] || f == last;
      if last.loadName in keyNames then init + [last] else init
  }

  /** A collection: the selected fields and the key fields among them. */
  datatype FieldsCollection = FieldsCollection(fields: seq<Field>, keyFields: seq<Field>)

  /** The constructor. The key names default to none (`key_fields or []`); when none of the
      selected fields is named, every selected field is a key. */
  function NewCollection(catalogue: seq<Field>, requested: seq<string>, keyNames: seq<string>): (c: FieldsCollection)
  {
    var fields := Selected(catalogue, requested);
    var keys := NamedIn(fields, keyNames);
    FieldsCollection(fields, if |keys| == 0 then fields else keys)
  }

  /** The key fields are the selected fields that are named, or all selected fields when none
      is; either way they are selected fields, and there is at least one when anything is
      selected. */
  lemma CollectionKeys(catalogue: seq<Field>, requested: seq<string>, keyNames: seq<string>)
    ensures var c := NewCollection(catalogue, requested, keyNames);
      && (forall f :: f in c.keyFields ==> f in c.fields)
      && ((exists f :: f in c.fields && f.loadName in keyNames) ==>
            forall f :: f in c.keyFields <==> f in c.fields && f.loadName in keyNames)
      && ((forall f :: f in c.fields ==> f.loadName !in keyNames) ==> c.keyFields == c.fields)
      && (c.fields != [] ==> c.keyFields != [])
  {
    var c := NewCollection(catalogue, requested, keyNames);
    var keys := NamedIn(c.fields, keyNames);
    if exists f :: f in c.fields && f.loadName in keyNames {
      var f :| f in c.fields && f.loadName in keyNames;
      assert f in keys;
    }
    if keys != [] {
      assert keys[0] in keys;
    }
  }

  /** `get_load_fields`: the load names of the fields that are fetched, not generated. */
  function LoadFields(c: FieldsCollection): (names: seq<string>)
  {
    LoadNames(c.fields)
  }

  function LoadNames(fs: seq<Field>): (names: seq<string>)
    ensures forall n :: n in names <==> exists f :: f in fs && !f.generated && f.loadName == n
  {
    if fs == [] then []
    else
      var init := LoadNames(fs[..|fs| - 1]);
      var last := fs[|fs| - 1];
      assert forall f :: f in fs <==> f in fs[..|fs| - 1] || f == last;
      if last.generated then init else init + [last.loadName]
  }

  /** The list comprehension keeps order: the names of two runs of fields are those of the
      first run followed by those of the second. */
  lemma {:induction false} LoadNamesAppend(a: seq<Field>, b: seq<Field>)
    ensures LoadNames(a + b) == LoadNames(a) + LoadNames(b)
    decreases |b|
  {
    if b == [] {
      assert a + b == a;
    } else {
      var b' := b[..|b| - 1];
      LoadNamesAppend(a, b');
      assert (a + b)[..|a + b| - 1] == a + b';
    }
  }

  /** `get_db_fields`: each field's column and type, in order. */
  function DbFields(c: FieldsCollection): (r: seq<(string, string)>)
    ensures |r| == |c.fields| && forall k :: 0 <= k < |r| ==> r[k] == (c.fields[k].dbName, c.fields[k].dbType)
  {
    seq(|c.fields|, k requires 0 <= k < |c.fields| => (c.fields[k].dbName, c.fields[k].dbType))
  }

  /** `get_db_keys`: the key fields' columns, in order. */
  function DbKeys(c: FieldsCollection): (r: seq<string>)
    ensures |r| == |c.keyFields| && forall k :: 0 <= k < |r| ==> r[k] == c.keyFields[k].dbName
  {
    seq(|c.keyFields|, k requires 0 <= k < |c.keyFields| => c.keyFields[k].dbName)
  }

  /** `get_export_keys_list`: every field's load name, in order. */
  function ExportKeys(c: FieldsCollection): (r: seq<string>)
    ensures |r| == |c.fields| && forall k :: 0 <= k < |r| ==> r[k] == c.fields[k].loadName
  {
    seq(|c.fields|, k requires 0 <= k < |c.fields| => c.fields[k].loadName)
  }

  /** `get_converters`: the load name and converter of the fields that have one, in order. */
  function ConverterNames(c: FieldsCollection): (r: seq<(string, string)>)
  {
    Converters(c.fields)
  }

  function Converters(fs: seq<Field>): (r: seq<(string, string)>)
    ensures forall p :: p in r <==> exists f :: f in fs && f.converter == Some(p.1) && f.loadName == p.0
  {
    if fs == [] then []
    else
      var init := Converters(fs[..|fs| - 1]);
      var last := fs[|fs| - 1];
      assert forall f :: f in fs <==> f in fs[..|fs| - 1] || f == last;
      match last.converter
      case None => init
      case Some(name) => init + [(last.loadName, name)]
  }

  /** The converters keep the fields' order: those of two runs of fields are the first run's
      followed by the second's, so a later field's converter is applied later. */
  lemma {:induction false} ConvertersAppend(a: seq<Field>, b: seq<Field>)
    ensures Converters(a + b) == Converters(a) + Converters(b)
    decreases |b|
  {
    if b == [] {
      assert a + b == a;
    } else {
      var b' := b[..|b| - 1];
      ConvertersAppend(a, b');
      assert (a + b)[..|a + b| - 1] == a + b';
    }
  }

  /** The key columns are database columns of the collection, as the older updater's
      de-duplication requires of its key fields. */
  lemma KeysAreDbFields(catalogue: seq<Field>, requested: seq<string>, keyNames: seq<string>)
    ensures var c := NewCollection(catalogue, requested, keyNames);
      forall k :: 0 <= k < |DbKeys(c)| ==> DbKeys(c)[k] in Names(DbFields(c))
  {
    var c := NewCollection(catalogue, requested, keyNames);
    CollectionKeys(catalogue, requested, keyNames);
    var names := Names(DbFields(c));
    forall k | 0 <= k < |DbKeys(c)|
      ensures DbKeys(c)[k] in names
    {
      var f := c.keyFields[k];
      assert f in c.keyFields;
      var j :| 0 <= j < |c.fields| && c.fields[j] == f;
      assert names[j] == f.dbName;
    }
  }

  /** The converter columns `_apply_converters` runs: each named converter resolved. */
  function ResolvedConverters(pairs: seq<(string, string)>, resolve: string -> Converter): (r: seq<(string, Converter)>)
    ensures |r| == |pairs| && forall k :: 0 <= k < |r| ==> r[k].0 == pairs[k].0
  {
    seq(|pairs|, k requires 0 <= k < |pairs| => (pairs[k].0, resolve(pairs[k].1)))
  }

  // ----- fields.py -----

  /** The older collection sorts the catalogue's field tuples by load name before
      selecting. */
  function NewSortedCollection(catalogue: seq<Field>, requested: seq<string>, keyNames: seq<string>): (c: FieldsCollection)
  {
    NewCollection(SortByName(catalogue), requested, keyNames)
  }

  /** Its fields are in load-name order and are the fields the newer collection selects. */
  lemma SortedCollectionFields(catalogue: seq<Field>, requested: seq<string>, keyNames: seq<string>)
    ensures var c := NewSortedCollection(catalogue, requested, keyNames);
      && SortedByName(c.fields)
      && forall f :: f in c.fields <==> f in NewCollection(catalogue, requested, keyNames).fields
  {
    var sorted := SortByName(catalogue);
    SortByNameSorted(catalogue);
    var c := NewSortedCollection(catalogue, requested, keyNames);
    assert forall f :: f in sorted <==> f in catalogue by {
      forall f ensures f in sorted <==> f in catalogue {
        assert f in sorted <==> f in multiset(sorted);
        assert f in catalogue <==> f in multiset(catalogue);
      }
    }
    SelectedSorted(sorted, requested);
  }

  /** Selecting from fields in load-name order keeps that order. */
  lemma {:induction false} SelectedSorted(fs: seq<Field>, requested: seq<string>)
    requires SortedByName(fs)
    ensures SortedByName(Selected(fs, requested))
    decreases |fs|
  {
    if fs != [] {
      var init := fs[..|fs| - 1];
      assert SortedByName(init);
      SelectedSorted(init, requested);
      var r := Selected(fs, requested);
      var s := Selected(init, requested);
      forall i, j | 0 <= i < j < |r|
        ensures TextLe(r[i].loadName, r[j].loadName)
      {
        if j == |s| {
          assert r[i] in s;
          var m :| 0 <= m < |init| && init[m] == r[i];
          assert fs[m] == r[i] && fs[|fs| - 1] == r[j];
        } else {
          assert r[i] == s[i] && r[j] == s[j];
        }
      }
    }
  }
}
