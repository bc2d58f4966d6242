/** `db/clickhouse.py`: the loader's client of a ClickHouse server. The text-building parts
    (authentication, the logged form of a query, the answer to a listing, the table engine,
    the column list, the header rewrite of `_create_table_like`) are functions. The server
    the queries act on is the state of a `ClickhouseDatabase` object: its databases, and the
    tables of the loader's database with their columns, engine and rows.

    Each state-changing method returns `ok`. `ok` is false where the server answers a
    query with an error status, so that `_query_clickhouse` raises `ValueError`; the state
    is then as that query left it, and the steps after it do not run. */
module Clickhouse {
  import opened Common
  import opened Dicts
  import opened Frames

  const QueryLogLimit: nat := 200

  /** `_get_clickhouse_auth`: no authentication for an empty login, otherwise the login and
      password. */
  function Auth(login: string, password: string): (r: Option<(string, string)>)
    ensures r.None? <==> login == ""
    ensures r.Some? ==> r.value == (login, password)
  {
    if login != "" then Some((login, password)) else None
  }

  /** The query text `_query_clickhouse` logs: cut to 200 characters with `[...]` after
      a longer one, and newlines turned into spaces. */
  function LogText(query: string): (r: string)
    ensures '\n' !in r
    ensures |query| <= QueryLogLimit ==> |r| == |query|
    ensures |query| > QueryLogLimit ==> |r| == QueryLogLimit + 5 && r[QueryLogLimit..] == "[...]"
    ensures forall i :: 0 <= i < |r| && i < QueryLogLimit && i < |query| ==>
              r[i] == if query[i] == '\n' then ' ' else query[i]
  {
    var cut := if |query| > QueryLogLimit then query[..QueryLogLimit] + "[...]" else query;
    ReplaceOneChar(cut, '\n', ' ');
    ReplaceChar(cut, '\n', " ")
  }

  /** Replacing one character by another keeps the length and every other character. */
  lemma {:induction false} ReplaceOneChar(text: string, c: char, d: char)
    ensures |ReplaceChar(text, c, [d])| == |text|
    ensures forall i :: 0 <= i < |text| ==>
              ReplaceChar(text, c, [d])[i] == if text[i] == c then d else text[i]
    decreases |text|
  {
    if |text| > 0 {
      ReplaceOneChar(text[1..], c, d);
    }
  }

  /** `_query_clickhouse`'s answer: the body with status 200, otherwise `ValueError` with the
      body. */
  function QueryAnswer(status: int, body: string): (r: Result<string, string>)
    ensures r.Ok? <==> status == 200
    ensures r.Ok? ==> r.value == body
    ensures r.Err? ==> r.error == body
  {
    if status == 200 then Ok(body) else Err(body)
  }

  /** `name in answer.strip().split('\n')` */
  predicate ListedIn(answer: string, name: string)
  {
    name in Split(Strip(answer), '\n')
  }

  /** How the server answers `SHOW DATABASES` or `SHOW TABLES`: one name per line. */
  function Listing(names: seq<string>): string
  {
    Join(names, "\n") + "\n"
  }

  /** A name as the server lists it: not empty, with no blank in it. */
  predicate PlainName(name: string)
  {
    |name| > 0 && forall i :: 0 <= i < |name| ==> !IsSpace(name[i])
  }

  predicate PlainNames(names: seq<string>)
  {
    forall k :: 0 <= k < |names| ==> PlainName(names[k])
  }

  /** `database_exists` and `table_exists` find a name exactly when the server lists it. */
  lemma ListedIff(names: seq<string>, name: string)
    requires PlainNames(names) && PlainName(name)
    ensures ListedIn(Listing(names), name) <==> name in names
  {
    var joined := Join(names, "\n");
    if names == [] {
      assert Strip(Listing(names)) == "";
    } else {
      StripListing(names);
      JoinSplit(names, '\n');
    }
  }

  lemma StripListing(names: seq<string>)
    requires PlainNames(names) && |names| >= 1
    ensures Strip(Listing(names)) == Join(names, "\n")
  {
    JoinEnds(names);
    StripPlainEnds(Join(names, "\n"));
  }

  /** A text that starts and ends with a character that is not blank loses only the
      newline after it. */
  lemma StripPlainEnds(text: string)
    requires |text| > 0 && !IsSpace(text[0]) && !IsSpace(text[|text| - 1])
    ensures Strip(text + "\n") == text
  {
    var listed := text + "\n";
    assert StripLeft(listed) == listed by {
      assert listed[0] == text[0];
      StripLeftPlain(listed);
    }
    StripRightNewline(text);
  }

  /** The listing starts and ends with a character that is not blank. */
  lemma JoinEnds(names: seq<string>)
    requires PlainNames(names) && |names| >= 1
    ensures var joined := Join(names, "\n");
      |joined| > 0 && !IsSpace(joined[0]) && !IsSpace(joined[|joined| - 1])
  {
    JoinLast(names, "\n");
    assert PlainName(names[0]);
    assert PlainName(names[|names| - 1]);
    if |names| > 1 {
      assert Join(names, "\n") == names[0] + "\n" + Join(names[1..], "\n");
    }
  }

  lemma StripLeftPlain(text: string)
    requires |text| > 0 && !IsSpace(text[0])
    ensures StripLeft(text) == text
  {
  }

  lemma StripRightNewline(text: string)
    requires |text| > 0 && !IsSpace(text[|text| - 1])
    ensures StripRight(text + "\n") == text
  {
    var t := text + "\n";
    assert t[..|t| - 1] == text;
  }

  // ----- table definitions -----

  /** `_table_engine(date_field, sampling_field, primary_key_fields)`: `MergeTree` with its
      arguments separated by `, `. */
  function TableEngine(dateField: string, samplingField: Option<string>, primaryKeys: seq<string>): string
  {
    "MergeTree(" + Join(EngineArgs(dateField, samplingField, primaryKeys), ", ") + ")"
  }

  /** The arguments of the engine; an empty sampling field counts as none. */
  function EngineArgs(dateField: string, samplingField: Option<string>, primaryKeys: seq<string>): seq<string>
  {
    var sampled := samplingField.Some? && samplingField.value != "";
    var sampling := if sampled then ["cityHash64(" + samplingField.value + ")"] else [];
    var keys := [dateField] + primaryKeys + sampling;
    [dateField] + sampling + ["(" + Join(keys, ", ") + ")", "8192"]
  }

  /** The date field comes first. With a sampling field `s`, next comes `cityHash64(s)`.
      Then the primary key in brackets: the date field, the key fields and, with sampling,
      `cityHash64(s)`. The index granularity 8192 is last. */
  lemma EngineArgsShape(dateField: string, samplingField: Option<string>, primaryKeys: seq<string>)
    ensures samplingField.Some? && samplingField.value != "" ==>
      var hash := "cityHash64(" + samplingField.value + ")";
      EngineArgs(dateField, samplingField, primaryKeys)
        == [dateField, hash, "(" + Join([dateField] + primaryKeys + [hash], ", ") + ")", "8192"]
    ensures !(samplingField.Some? && samplingField.value != "") ==>
      EngineArgs(dateField, samplingField, primaryKeys)
        == [dateField, "(" + Join([dateField] + primaryKeys, ", ") + ")", "8192"]
  {
    if samplingField.Some? && samplingField.value != "" {
      var hash := "cityHash64(" + samplingField.value + ")";
      SampledArgs(dateField, hash, "(" + Join([dateField] + primaryKeys + [hash], ", ") + ")", "8192");
    } else {
      UnsampledArgs(dateField, primaryKeys, "(" + Join([dateField] + primaryKeys, ", ") + ")", "8192");
    }
  }

  lemma SampledArgs<T>(dateField: T, hash: T, keyText: T, last: T)
    ensures [dateField] + [hash] + [keyText, last] == [dateField, hash, keyText, last]
  {
  }

  lemma UnsampledArgs<T>(dateField: T, primaryKeys: seq<T>, keyText: T, last: T)
    ensures [dateField] + primaryKeys + [] == [dateField] + primaryKeys
    ensures [dateField] + [] + [keyText, last] == [dateField, keyText, last]
  {
  }

  /** `','.join('{} {}'.format(f, f_type) for (f, f_type) in fields)`: one `name type` per
      column, in order. */
  function FieldsText(fields: seq<(string, string)>): string
  {
    Join(ColumnTexts(fields), ",")
  }

  function ColumnTexts(fields: seq<(string, string)>): (r: seq<string>)
    ensures |r| == |fields|
    ensures forall k :: 0 <= k < |fields| ==> r[k] == fields[k].0 + " " + fields[k].1
  {
    if fields == [] then [] else ColumnTexts(fields[..|fields| - 1]) + [fields[|fields| - 1].0 + " " + fields[|fields| - 1].1]
  }

  /** The column list reads back column by column when no name or type holds a comma. */
  lemma FieldsTextSplits(fields: seq<(string, string)>)
    requires |fields| >= 1
    requires forall k :: 0 <= k < |fields| ==> ',' !in fields[k].0 && ',' !in fields[k].1
    ensures Split(FieldsText(fields), ',') == ColumnTexts(fields)
  {
    var texts := ColumnTexts(fields);
    forall k | 0 <= k < |texts|
      ensures ',' !in texts[k]
    {
      assert texts[k] == fields[k].0 + " " + fields[k].1;
    }
    JoinSplit(texts, ',');
  }

  /** The start of the statement `SHOW CREATE TABLE` answers with. */
  function CreateHeader(db: string, table: string): string
  {
    "CREATE TABLE " + db + "." + table
  }

  /** `_create_table_like`'s rewrite of the `SHOW CREATE TABLE` answer: nothing for an empty
      answer, otherwise every `CREATE TABLE db.source` replaced by `CREATE TABLE db.newTable`. */
  function CreateLikeQuery(answer: string, db: string, source: string, newTable: string): (r: Option<string>)
    ensures r.None? <==> answer == ""
  {
    if answer != "" then Some(ReplaceAll(answer, CreateHeader(db, source), CreateHeader(db, newTable))) else None
  }

  /** The rewrite renames the table in the header and leaves the rest of the statement as
      it is, when the rest does not repeat the header. */
  lemma CreateLikeRenames(db: string, source: string, newTable: string, rest: string)
    requires !Contains(rest, CreateHeader(db, source))
    ensures CreateLikeQuery(CreateHeader(db, source) + rest, db, source, newTable)
         == Some(CreateHeader(db, newTable) + rest)
  {
    ReplaceHead(CreateHeader(db, source), rest, CreateHeader(db, newTable));
    ReplaceAbsent(rest, CreateHeader(db, source), CreateHeader(db, newTable));
  }

  /** An answer that does not name the source table is sent back unchanged. */
  lemma CreateLikeUnchanged(answer: string, db: string, source: string, newTable: string)
    requires answer != "" && !Contains(answer, CreateHeader(db, source))
    ensures CreateLikeQuery(answer, db, source, newTable) == Some(answer)
  {
    ReplaceAbsent(answer, CreateHeader(db, source), CreateHeader(db, newTable));
  }

  // ----- rows -----

  /** The character a backslash escape of the TabSeparated format stands for. */
  function Unescaped(x: char): char
  {
    match x
    case 'b' => '\U{8}'
    case 'f' => '\U{c}'
    case 'r' => '\r'
    case 'n' => '\n'
    case 't' => '\t'
    case '0' => '\0'
    case _ => x
  }

  /** How the server reads a TabSeparated field: a backslash and the character after it
      stand for one character. */
  function Unescape(s: string): string
  {
    if |s| == 0 then ""
    else if s[0] == '\\' && |s| >= 2 then [Unescaped(s[1])] + Unescape(s[2..])
    else [s[0]] + Unescape(s[1..])
  }

  /** A text without backslashes reads as itself. */
  lemma {:induction false} UnescapePlain(s: string)
    requires '\\' !in s
    ensures Unescape(s) == s
    decreases |s|
  {
    if |s| > 0 {
      UnescapePlain(s[1..]);
      assert [s[0]] + s[1..] == s;
    }
  }

  function ReadCell(v: Value): Value
  {
    if v.Text? then Text(Unescape(v.s)) else v
  }

  /** A row of the uploaded TabSeparated content as the server stores it. */
  function ReadRow(row: Row): (r: Row)
    ensures r.Keys == row.Keys
  {
    map c | c in row :: ReadCell(row[c])
  }

  function ReadRows(rows: seq<Row>): (r: seq<Row>)
    ensures |r| == |rows|
    ensures forall i :: 0 <= i < |rows| ==> r[i] == ReadRow(rows[i])
  {
    if rows == [] then [] else ReadRows(rows[..|rows| - 1]) + [ReadRow(rows[|rows| - 1])]
  }

  /** The keys a table already holds. */
  function KeySet(rows: seq<Row>, keys: seq<string>): set<seq<Value>>
  {
    set i | 0 <= i < |rows| :: KeyOf(rows[i], keys)
  }

  /** `SELECT * FROM source WHERE NOT ((keys) GLOBAL IN (SELECT keys FROM target))`: the rows
      whose key is not taken, in order. Two new rows with the same new key are both kept,
      because the subquery reads the target as it was before the copy. */
  function Absent(rows: seq<Row>, taken: set<seq<Value>>, keys: seq<string>): (r: seq<Row>)
    ensures forall j :: 0 <= j < |r| ==> KeyOf(r[j], keys) !in taken
    ensures forall j :: 0 <= j < |r| ==> r[j] in rows
    ensures forall i :: 0 <= i < |rows| && KeyOf(rows[i], keys) !in taken ==> rows[i] in r
    ensures |r| <= |rows|
  {
    if rows == [] then []
    else
      var init := Absent(rows[..|rows| - 1], taken, keys);
      var last := rows[|rows| - 1];
      assert forall i :: 0 <= i < |rows| - 1 ==> rows[i] == rows[..|rows| - 1][i];
      if KeyOf(last, keys) in taken then init else init + [last]
  }

  /** The filter keeps order: the absent rows of two runs of rows are those of the first run
      followed by those of the second, each row kept exactly when its key is not taken. */
  lemma {:induction false} AbsentAppend(a: seq<Row>, b: seq<Row>, taken: set<seq<Value>>, keys: seq<string>)
    ensures Absent(a + b, taken, keys) == Absent(a, taken, keys) + Absent(b, taken, keys)
    decreases |b|
  {
    if b == [] {
      assert a + b == a;
    } else {
      var b' := b[..|b| - 1];
      AbsentAppend(a, b', taken, keys);
      assert (a + b)[..|a + b| - 1] == a + b';
    }
  }

  /** Rows whose keys are all taken add nothing. */
  lemma {:induction false} AbsentNone(rows: seq<Row>, taken: set<seq<Value>>, keys: seq<string>)
    requires forall i :: 0 <= i < |rows| ==> KeyOf(rows[i], keys) in taken
    ensures Absent(rows, taken, keys) == []
    decreases |rows|
  {
    if rows != [] {
      AbsentNone(rows[..|rows| - 1], taken, keys);
    }
  }

  /** Copying the same rows a second time adds nothing: every row's key was either taken
      before the first copy or added by it. */
  lemma CopyDistinctIdempotent(existing: seq<Row>, rows: seq<Row>, keys: seq<string>)
    ensures var after := existing + Absent(rows, KeySet(existing, keys), keys);
      Absent(rows, KeySet(after, keys), keys) == []
  {
    var added := Absent(rows, KeySet(existing, keys), keys);
    var after := existing + added;
    forall i | 0 <= i < |rows|
      ensures KeyOf(rows[i], keys) in KeySet(after, keys)
    {
      if KeyOf(rows[i], keys) in KeySet(existing, keys) {
        var j :| 0 <= j < |existing| && KeyOf(existing[j], keys) == KeyOf(rows[i], keys);
        assert after[j] == existing[j];
      } else {
        assert rows[i] in added;
        var j :| 0 <= j < |added| && added[j] == rows[i];
        assert after[|existing| + j] == rows[i];
      }
    }
    AbsentNone(rows, KeySet(after, keys), keys);
  }

  // ----- the server -----

  /** A table: its columns with their types, its engine, and its rows. */
  datatype Table = Table(fields: seq<(string, string)>, engine: string, rows: seq<Row>)

  /** The regular-expression search of `is_valid_scheme`: the wanted columns appear, in
      order and next to each other, among the table's columns. */
  predicate FieldsAppear(stored: seq<(string, string)>, wanted: seq<(string, string)>)
  {
    exists i :: 0 <= i <= |stored| - |wanted| && FieldsAt(stored, wanted, i)
  }

  predicate FieldsAt(stored: seq<(string, string)>, wanted: seq<(string, string)>, i: int)
    requires 0 <= i <= |stored| - |wanted|
  {
    stored[i..i + |wanted|] == wanted
  }

  class ClickhouseDatabase {
    const url: string
    const login: string
    const password: string
    const dbName: string
    /** The server's databases, in the order it lists them. */
    var databases: seq<string>
    /** The tables of the database `dbName`, in the order the server lists them. */
    var tables: Dict<string, Table>

    /** `ClickhouseDatabase(url, login, password, db_name)`, talking to a server whose
        state is given. */
    constructor(url: string, login: string, password: string, dbName: string,
                databases: seq<string>, tables: Dict<string, Table>)
      requires UniqueKeys(tables) && (dbName !in databases ==> tables == [])
      ensures Valid()
      ensures this.url == url && this.login == login && this.password == password
      ensures this.dbName == dbName && this.databases == databases && this.tables == tables
    {
      this.url := url;
      this.login := login;
      this.password := password;
      this.dbName := dbName;
      this.databases := databases;
      this.tables := tables;
    }

    /** The tables are named once each, and only an existing database has tables. */
    predicate Valid()
      reads this
    {
      UniqueKeys(tables) && (dbName !in databases ==> tables == [])
    }

    /** `database_exists`: the database is among the lines of `SHOW DATABASES`. */
    method DatabaseExists() returns (b: bool)
      ensures b == ListedIn(Listing(databases), dbName)
      ensures PlainNames(databases) && PlainName(dbName) ==> (b <==> dbName in databases)
    {
      var answer := Listing(databases);
      b := dbName in Split(Strip(answer), '\n');
      if PlainNames(databases) && PlainName(dbName) {
        ListedIff(databases, dbName);
      }
    }

    /** `create_database`: refused when the database exists. */
    method CreateDatabase() returns (ok: bool)
      requires Valid()
      modifies this
      ensures Valid()
      ensures ok <==> dbName !in old(databases)
      ensures databases == if ok then old(databases) + [dbName] else old(databases)
      ensures tables == old(tables)
    {
      ok := dbName !in databases;
      if ok {
        databases := databases + [dbName];
      }
    }

    /** `drop_database`: `DROP DATABASE IF EXISTS` removes the database and its tables. */
    method DropDatabase()
      modifies this
      ensures Valid()
      ensures dbName !in databases
      ensures forall n :: n in databases <==> n in old(databases) && n != dbName
      ensures tables == []
    {
      var kept: seq<string> := [];
      var i := 0;
      while i < |databases|
        invariant 0 <= i <= |databases|
        invariant forall n :: n in kept <==> n in databases[..i] && n != dbName
      {
        if databases[i] != dbName {
          kept := kept + [databases[i]];
        }
        i := i + 1;
      }
      assert databases[..i] == databases;
      databases := kept;
      tables := [];
    }

    /** `table_exists`: `SHOW TABLES FROM db` fails for a missing database; otherwise the
        table is among the lines of the answer. */
    method TableExists(name: string) returns (ok: bool, b: bool)
      ensures ok <==> dbName in databases
      ensures ok ==> b == ListedIn(Listing(Keys(tables)), name)
      ensures ok && PlainNames(Keys(tables)) && PlainName(name) ==> (b <==> name in Keys(tables))
    {
      ok := dbName in databases;
      b := false;
      if ok {
        var answer := Listing(Keys(tables));
        b := name in Split(Strip(answer), '\n');
        if PlainNames(Keys(tables)) && PlainName(name) {
          ListedIff(Keys(tables), name);
        }
      }
    }

    /** `drop_table`: `DROP TABLE IF EXISTS` removes the table when there is one. */
    method DropTable(name: string)
      requires Valid()
      modifies this
      ensures Valid()
      ensures tables == RemoveKey(old(tables), name)
      ensures databases == old(databases)
    {
      tables := RemoveKey(tables, name);
    }

    /** `create_table`: a new empty table with the given columns and the `MergeTree` engine
        of `_table_engine`; refused for a missing database or an existing table. */
    method CreateTable(name: string, fields: seq<(string, string)>, dateField: string,
                       samplingField: Option<string>, primaryKeys: seq<string>) returns (ok: bool)
      requires Valid()
      modifies this
      ensures Valid()
      ensures ok <==> dbName in old(databases) && name !in Keys(old(tables))
      ensures tables == if ok then old(tables) + [(name, Table(fields, TableEngine(dateField, samplingField, primaryKeys), []))]
                        else old(tables)
      ensures databases == old(databases)
    {
      ok := dbName in databases && name !in Keys(tables);
      if ok {
        tables := tables + [(name, Table(fields, TableEngine(dateField, samplingField, primaryKeys), []))];
      }
    }

    /** `is_valid_scheme`: `SHOW CREATE TABLE` fails for a missing table; otherwise the
        table is valid when the wanted columns appear in it. The engine is not checked. */
    method IsValidScheme(name: string, fields: seq<(string, string)>) returns (ok: bool, b: bool)
      ensures ok <==> Get(tables, name).Some?
      ensures ok ==> (b <==> FieldsAppear(Get(tables, name).value.fields, fields))
    {
      var t := Get(tables, name);
      ok := t.Some?;
      b := ok && FieldsAppear(t.value.fields, fields);
    }

    /** `_create_table_like`: a new empty table with the columns and engine of the source
        table. `SHOW CREATE TABLE` fails for a missing source, and the rewritten statement
        is refused when the new name is taken. */
    method CreateTableLike(source: string, newTable: string) returns (ok: bool)
      requires Valid()
      modifies this
      ensures Valid()
      ensures ok <==> Get(old(tables), source).Some? && newTable !in Keys(old(tables))
      ensures ok ==> tables == old(tables) + [(newTable, Get(old(tables), source).value.(rows := []))]
      ensures !ok ==> tables == old(tables)
      ensures databases == old(databases)
    {
      var t := Get(tables, source);
      ok := t.Some? && newTable !in Keys(tables);
      if ok {
        tables := tables + [(newTable, t.value.(rows := []))];
      }
    }

    /** `insert`: the TabSeparated rows are read and added after the table's rows; refused
        for a missing table. */
    method Insert(name: string, rows: seq<Row>) returns (ok: bool)
      requires Valid()
      modifies this
      ensures Valid()
      ensures ok <==> Get(old(tables), name).Some?
      ensures ok ==> tables == Set(old(tables), name,
                                   Get(old(tables), name).value.(rows := Get(old(tables), name).value.rows + ReadRows(rows)))
      ensures !ok ==> tables == old(tables)
      ensures databases == old(databases)
    {
      var t := Get(tables, name);
      ok := t.Some?;
      if ok {
        tables := Set(tables, name, t.value.(rows := t.value.rows + ReadRows(rows)));
      }
    }

    /** `_copy_data_distinct`: the rows of the source whose key the target does not hold
        yet are added after the target's rows; refused when either table is missing. */
    method CopyDataDistinct(source: string, target: string, keys: seq<string>) returns (ok: bool)
      requires Valid()
      modifies this
      ensures Valid()
      ensures ok <==> Get(old(tables), source).Some? && Get(old(tables), target).Some?
      ensures ok ==> tables == Set(old(tables), target,
                                   CopiedInto(Get(old(tables), source).value, Get(old(tables), target).value, keys))
      ensures !ok ==> tables == old(tables)
      ensures databases == old(databases)
    {
      var s := Get(tables, source);
      var t := Get(tables, target);
      ok := s.Some? && t.Some?;
      if ok {
        tables := Set(tables, target, CopiedInto(s.value, t.value, keys));
      }
    }

    /** `insert_distinct`: the temporary table is dropped and made again like the target,
        the content goes into it, and the rows whose key the target lacks are copied over.
        Only a missing target stops it. */
    method InsertDistinct(table: string, content: seq<Row>, keys: seq<string>, temp: string) returns (ok: bool)
      requires Valid() && temp != table
      modifies this
      ensures Valid()
      ensures ok <==> Get(old(tables), table).Some?
      ensures ok ==> tables == DistinctInsertion(old(tables), table, content, keys, temp)
      ensures !ok ==> tables == RemoveKey(old(tables), temp)
      ensures databases == old(databases)
    {
      ghost var before := tables;
      DropTable(temp);
      ok := CreateTableLike(table, temp);
      if !ok {
        return;
      }
      InsertDistinctSteps(before, table, content, keys, temp);
      ok := Insert(temp, content);
      ok := CopyDataDistinct(temp, table, keys);
    }
  }

  /** The tables `insert_distinct` passes through: the temporary table made like the target
      and empty, then holding the content, then the target with the new rows. */
  lemma InsertDistinctSteps(before: Dict<string, Table>, table: string, content: seq<Row>,
                            keys: seq<string>, temp: string)
    requires UniqueKeys(before) && temp != table && Get(before, table).Some?
    ensures var t := Get(before, table).value;
      var created := RemoveKey(before, temp) + [(temp, t.(rows := []))];
      var empty := Get(created, temp);
      && UniqueKeys(created) && empty.Some?
      && var filled := Set(created, temp, empty.value.(rows := empty.value.rows + ReadRows(content)));
         && Get(filled, temp).Some? && Get(filled, table).Some?
         && Set(filled, table, CopiedInto(Get(filled, temp).value, Get(filled, table).value, keys))
              == DistinctInsertion(before, table, content, keys, temp)
  {
    var t := Get(before, table).value;
    var created := RemoveKey(before, temp) + [(temp, t.(rows := []))];
    CreatedLike(before, table, temp);
    assert [] + ReadRows(content) == ReadRows(content);
    GetSet(created, temp, t.(rows := ReadRows(content)), temp);
    GetSet(created, temp, t.(rows := ReadRows(content)), table);
  }

  /** The temporary table made like the target: empty, last, and the target unchanged. */
  lemma CreatedLike(before: Dict<string, Table>, table: string, temp: string)
    requires UniqueKeys(before) && temp != table && Get(before, table).Some?
    ensures var t := Get(before, table).value;
      var created := RemoveKey(before, temp) + [(temp, t.(rows := []))];
      UniqueKeys(created) && Get(created, temp) == Some(t.(rows := [])) && Get(created, table) == Some(t)
  {
    var t := Get(before, table).value;
    var dropped := RemoveKey(before, temp);
    SetAppends(dropped, temp, t.(rows := []));
    GetSet(dropped, temp, t.(rows := []), temp);
    GetSet(dropped, temp, t.(rows := []), table);
  }

  /** The tables after `insert_distinct` into an existing target: the temporary table,
      last, holds the content, and the target gains the rows whose key it lacked. */
  function DistinctInsertion(tables: Dict<string, Table>, table: string, content: seq<Row>,
                             keys: seq<string>, temp: string): Dict<string, Table>
    requires Get(tables, table).Some?
  {
    var t := Get(tables, table).value;
    var created := RemoveKey(tables, temp) + [(temp, t.(rows := []))];
    var filled := Set(created, temp, t.(rows := ReadRows(content)));
    Set(filled, table, CopiedInto(t.(rows := ReadRows(content)), t, keys))
  }

  /** What `insert_distinct` leaves: the target's rows followed by the new rows whose key
      it did not hold, taken from the content only; the temporary table holding the
      content; every other table as it was. */
  lemma DistinctInsertionEffect(tables: Dict<string, Table>, table: string, content: seq<Row>,
                                keys: seq<string>, temp: string)
    requires UniqueKeys(tables) && temp != table && Get(tables, table).Some?
    ensures var after := DistinctInsertion(tables, table, content, keys, temp);
      var t := Get(tables, table).value;
      UniqueKeys(after) &&
      Get(after, table) == Some(t.(rows := t.rows + Absent(ReadRows(content), KeySet(t.rows, keys), keys))) &&
      Get(after, temp) == Some(t.(rows := ReadRows(content))) &&
      forall n :: n != table && n != temp ==> Get(after, n) == Get(tables, n)
  {
    var t := Get(tables, table).value;
    var dropped := RemoveKey(tables, temp);
    var created := dropped + [(temp, t.(rows := []))];
    SetAppends(dropped, temp, t.(rows := []));
    var filled := Set(created, temp, t.(rows := ReadRows(content)));
    var after := Set(filled, table, CopiedInto(t.(rows := ReadRows(content)), t, keys));
    assert UniqueKeys(created);
    forall n
      ensures Get(after, n) == if n == table then Some(CopiedInto(t.(rows := ReadRows(content)), t, keys))
                               else if n == temp then Some(t.(rows := ReadRows(content)))
                               else Get(tables, n)
    {
      GetSet(filled, table, CopiedInto(t.(rows := ReadRows(content)), t, keys), n);
      GetSet(created, temp, t.(rows := ReadRows(content)), n);
      GetSet(dropped, temp, t.(rows := []), n);
    }
  }

  /** The target after `_copy_data_distinct` from the source. */
  function CopiedInto(source: Table, target: Table, keys: seq<string>): Table
  {
    target.(rows := target.rows + Absent(source.rows, KeySet(target.rows, keys), keys))
  }
}
