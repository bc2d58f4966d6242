/** The first generation's `Updater` (top-level `updater.py`): for every API key and every
    day of the window it loads the day's export, drops duplicate rows, stamps the API key,
    applies the converters, and copies into the production table, by way of two temporary
    tables, only the rows whose key the table does not yet hold for that day.

    The database (`db.py`) is a set of tables by name, each a sequence of rows; column types
    and the engine are not kept. */
module LegacyUpdating {
  import opened Common
  import opened Calendar
  import opened Frames
  import opened Clickhouse
  import opened UpdaterPipeline

  // ----- drop_duplicates -----

  /** `df.drop_duplicates()`: the first of each group of equal rows, in order. */
  function Distinct(rows: seq<Row>): (r: seq<Row>)
    ensures forall x :: x in r <==> x in rows
    ensures forall i, j :: 0 <= i < j < |r| ==> r[i] != r[j]
  {
    if rows == [] then []
    else
      var init := Distinct(rows[..|rows| - 1]);
      var last := rows[|rows| - 1];
      assert forall x :: x in rows <==> x in rows[..|rows| - 1] || x == last;
      if last in init then init else init + [last]
  }

  /** Rows without duplicates are kept as they are. */
  lemma {:induction false} DistinctOfUnique(rows: seq<Row>)
    requires forall i, j :: 0 <= i < j < |rows| ==> rows[i] != rows[j]
    ensures Distinct(rows) == rows
  {
    if rows != [] {
      var init := rows[..|rows| - 1];
      DistinctOfUnique(init);
      assert rows[|rows| - 1] !in init;
      assert init + [rows[|rows| - 1]] == rows;
    }
  }

  /** Dropping duplicates keeps the order: the result for a prefix of the rows is a prefix of
      the result for all of them. */
  lemma {:induction false} DistinctPrefix(rows: seq<Row>, k: nat)
    requires k <= |rows|
    ensures Distinct(rows[..k]) <= Distinct(rows)
    decreases |rows|
  {
    if k < |rows| {
      var init := rows[..|rows| - 1];
      assert init[..k] == rows[..k];
      DistinctPrefix(init, k);
    } else {
      assert rows[..k] == rows;
    }
  }

  // ----- the configuration -----

  /** What the constructor takes from the fields collection: the source, the production
      table, the fields to load, the database fields with their types, the key fields, the
      fields to export and the converters. */
  datatype Config = Config(
    sourceName: string,
    tableName: string,
    loadFields: seq<string>,
    dbFields: seq<(string, string)>,
    keyFields: seq<string>,
    exportFields: seq<string>,
    converters: seq<(string, Converter)>)

  /** `'{}_tmp_data'.format(table_name)` */
  function TempLoadName(table: string): string { table + "_tmp_data" }

  /** `'{}_tmp_data_ins'.format(table_name)` */
  function TempInsertName(table: string): string { table + "_tmp_data_ins" }

  /** The production table and the two temporary tables are three different tables. */
  lemma TempNamesDistinct(table: string)
    ensures TempLoadName(table) != table && TempInsertName(table) != table
    ensures TempLoadName(table) != TempInsertName(table)
  {
    assert |TempLoadName(table)| == |table| + 9;
    assert |TempInsertName(table)| == |table| + 13;
  }

  function Names(fields: seq<(string, string)>): (names: seq<string>)
    ensures |names| == |fields| && forall k :: 0 <= k < |fields| ==> names[k] == fields[k].0
  {
    seq(|fields|, k requires 0 <= k < |fields| => fields[k].0)
  }

  // ----- one day -----

  /** The frame after `drop_duplicates`, the `api_key` column and the converters. */
  function PreparedFrame(c: Config, df: Frame, apiKey: string): (r: Frame)
  {
    var unique := Frame(df.columns, Distinct(df.rows));
    var keyed := SetColumn(unique, "api_key", seq(|unique.rows|, _ => Text(apiKey)));
    Converted(keyed, c.converters)
  }

  /** `WHERE EventDate >= day AND EventDate <= day`: the rows of one day. */
  function DayRows(rows: seq<Row>, day: string): (r: seq<Row>)
    ensures forall j :: 0 <= j < |r| ==> Cell(r[j], "EventDate") == Text(day)
    ensures forall j :: 0 <= j < |r| ==> r[j] in rows
    ensures forall i :: 0 <= i < |rows| && Cell(rows[i], "EventDate") == Text(day) ==> rows[i] in r
  {
    if rows == [] then []
    else
      var init := DayRows(rows[..|rows| - 1], day);
      var last := rows[|rows| - 1];
      assert forall i :: 0 <= i < |rows| - 1 ==> rows[i] == rows[..|rows| - 1][i];
      if Cell(last, "EventDate") == Text(day) then init + [last] else init
  }

  function RestrictAll(rows: seq<Row>, cols: seq<string>): (r: seq<Row>)
    ensures |r| == |rows| && forall j :: 0 <= j < |rows| ==> r[j] == Restrict(rows[j], cols)
  {
    seq(|rows|, j requires 0 <= j < |rows| => Restrict(rows[j], cols))
  }

  /** `_create_tmp_table_for_insert(day, day)`: the loaded rows, over the database fields,
      whose key the production table does not hold among its rows of that day. */
  function Inserted(prod: seq<Row>, loaded: seq<Row>, day: string, keys: seq<string>, names: seq<string>): seq<Row>
  {
    RestrictAll(Absent(loaded, KeySet(DayRows(prod, day), keys), keys), names)
  }

  /** The load table's row for one uploaded row. The upload heads its columns with the
      export fields, but `FORMAT TabSeparatedWithNames` skips that header and fills the
      table's columns by position: the k-th export field's cell goes to the k-th database
      column. */
  function LoadRow(row: Row, exportFields: seq<string>, dbNames: seq<string>): (r: Row)
    requires |exportFields| == |dbNames|
    ensures forall m :: m in r <==> m in dbNames
    ensures forall k :: 0 <= k < |dbNames| && dbNames[k] !in dbNames[..k] ==>
              r[dbNames[k]] == Cell(row, exportFields[k])
    decreases |dbNames|
  {
    if dbNames == [] then map[]
    else
      var rest := LoadRow(row, exportFields[1..], dbNames[1..]);
      LoadRowShift(dbNames);
      rest[dbNames[0] := Cell(row, exportFields[0])]
  }

  lemma LoadRowShift(dbNames: seq<string>)
    requires dbNames != []
    ensures forall m :: m in dbNames <==> m == dbNames[0] || m in dbNames[1..]
    ensures forall k :: 0 < k < |dbNames| && dbNames[k] !in dbNames[..k] ==>
              dbNames[k] != dbNames[0] && dbNames[1..][k - 1] == dbNames[k] && dbNames[k] !in dbNames[1..][..k - 1]
  {
    forall k | 0 < k < |dbNames| && dbNames[k] !in dbNames[..k]
      ensures dbNames[k] != dbNames[0] && dbNames[k] !in dbNames[1..][..k - 1]
    {
      assert dbNames[0] == dbNames[..k][0];
      assert dbNames[1..][..k - 1] == dbNames[..k][1..];
    }
  }

  /** The rows the load table holds after the upload of some frame rows: each read back
      by the server, then placed by position. */
  function LoadRows(rows: seq<Row>, exportFields: seq<string>, dbNames: seq<string>): (r: seq<Row>)
    requires |exportFields| == |dbNames|
    ensures |r| == |rows|
    ensures forall i :: 0 <= i < |rows| ==> r[i] == LoadRow(ReadRow(rows[i]), exportFields, dbNames)
  {
    seq(|rows|, i requires 0 <= i < |rows| => LoadRow(ReadRow(rows[i]), exportFields, dbNames))
  }

  /** The rows the load table receives from the prepared frame, or the error that ends the
      upload: the export field the frame lacks (`KeyError`), or rows with another number of
      columns than the table has, which the server cannot parse. An upload without rows is
      only the header, which the server skips. */
  function Loaded(c: Config, df: Frame, apiKey: string): Result<seq<Row>, string>
  {
    match Select(PreparedFrame(c, df, apiKey), c.exportFields)
    case Err(missing) => Err(missing)
    case Ok(selected) =>
      if selected.rows == [] then Ok([])
      else if |c.exportFields| != |c.dbFields| then Err(ColumnCountError)
      else Ok(LoadRows(selected.rows, c.exportFields, Names(c.dbFields)))
  }

  /** The server's answer to a row with the wrong number of columns. */
  const ColumnCountError := "Cannot parse input"

  /** What the load table receives: each database column holds the cell of the export field
      at its position in the prepared frame, read back by the server; the upload fails
      exactly when an export field is missing or rows have the wrong number of columns. */
  lemma LoadedCells(c: Config, df: Frame, apiKey: string)
    ensures var prepared := PreparedFrame(c, df, apiKey);
      Loaded(c, df, apiKey).Err? <==>
        (exists k :: 0 <= k < |c.exportFields| && c.exportFields[k] !in prepared.columns)
        || (prepared.rows != [] && |c.exportFields| != |c.dbFields|)
    ensures var prepared := PreparedFrame(c, df, apiKey);
      Loaded(c, df, apiKey).Ok? ==>
        |Loaded(c, df, apiKey).value| == |prepared.rows|
        && forall i, k :: 0 <= i < |prepared.rows| && 0 <= k < |c.dbFields| && c.dbFields[k].0 !in Names(c.dbFields)[..k] ==>
             Cell(Loaded(c, df, apiKey).value[i], c.dbFields[k].0) == ReadCell(Cell(prepared.rows[i], c.exportFields[k]))
  {
    var prepared := PreparedFrame(c, df, apiKey);
    var names := Names(c.dbFields);
    match Select(prepared, c.exportFields)
    case Err(_) =>
    case Ok(selected) =>
      if selected.rows != [] && |c.exportFields| == |c.dbFields| {
        forall i, k | 0 <= i < |prepared.rows| && 0 <= k < |c.dbFields| && c.dbFields[k].0 !in names[..k]
          ensures Cell(Loaded(c, df, apiKey).value[i], c.dbFields[k].0) == ReadCell(Cell(prepared.rows[i], c.exportFields[k]))
        {
          var row := Restrict(prepared.rows[i], c.exportFields);
          assert names[k] == c.dbFields[k].0;
          assert c.exportFields[k] in row <==> c.exportFields[k] in prepared.rows[i];
        }
      }
  }

  /** The database tables after `_process_date`, and whether it returned. */
  datatype Outcome = Outcome(ok: bool, tables: map<string, seq<Row>>)

  /** `_process_date` on the export `df` of the day. With no database every statement fails;
      a failed upload (see `Loaded`) leaves the load table empty; a missing production
      table fails the query that reads it. */
  function ProcessDateOutcome(c: Config, tables: map<string, seq<Row>>, dbExists: bool,
                              df: Frame, apiKey: string, day: string): Outcome
  {
    var tempLoad, tempInsert := TempLoadName(c.tableName), TempInsertName(c.tableName);
    if !dbExists then Outcome(false, tables)
    else
      var cleared := tables - {tempLoad, tempInsert};
      match Loaded(c, df, apiKey)
      case Err(_) => Outcome(false, cleared[tempLoad := []])
      case Ok(loaded) =>
        if c.tableName !in tables then Outcome(false, cleared[tempLoad := loaded])
        else
          var prod := tables[c.tableName];
          Outcome(true, cleared[c.tableName := prod + Inserted(prod, loaded, day, c.keyFields, Names(c.dbFields))])
  }

  /** A day that completes leaves no temporary table behind, changes only the production
      table, and only by appending rows. */
  lemma ProcessDateEffect(c: Config, tables: map<string, seq<Row>>, dbExists: bool, df: Frame, apiKey: string, day: string)
    requires ProcessDateOutcome(c, tables, dbExists, df, apiKey, day).ok
    ensures var after := ProcessDateOutcome(c, tables, dbExists, df, apiKey, day).tables;
      && TempLoadName(c.tableName) !in after && TempInsertName(c.tableName) !in after
      && c.tableName in tables && c.tableName in after && tables[c.tableName] <= after[c.tableName]
      && forall t :: t in tables && t != c.tableName && t != TempLoadName(c.tableName) && t != TempInsertName(c.tableName)
           ==> t in after && after[t] == tables[t]
  {
    TempNamesDistinct(c.tableName);
    ProcessDateOk(c, tables, dbExists, df, apiKey, day);
    var loaded := Loaded(c, df, apiKey).value;
    var prod := tables[c.tableName];
    var inserted := Inserted(prod, loaded, day, c.keyFields, Names(c.dbFields));
    ProcessDateDone(c, tables, df, apiKey, day, loaded);
    AppendOnly(tables, TempLoadName(c.tableName), TempInsertName(c.tableName), c.tableName, inserted);
  }

  /** A day completes exactly when the database exists, the export has every export field
      and the production table exists. */
  lemma ProcessDateOk(c: Config, tables: map<string, seq<Row>>, dbExists: bool, df: Frame, apiKey: string, day: string)
    ensures ProcessDateOutcome(c, tables, dbExists, df, apiKey, day).ok <==>
              dbExists && Loaded(c, df, apiKey).Ok? && c.tableName in tables
  {
  }

  /** Without a database nothing changes. */
  lemma ProcessDateNoDatabase(c: Config, tables: map<string, seq<Row>>, df: Frame, apiKey: string, day: string)
    ensures ProcessDateOutcome(c, tables, false, df, apiKey, day) == Outcome(false, tables)
  {
  }

  /** The outcome when the upload into the load table fails. */
  lemma ProcessDateUnselected(c: Config, tables: map<string, seq<Row>>, df: Frame, apiKey: string, day: string)
    requires Loaded(c, df, apiKey).Err?
    ensures ProcessDateOutcome(c, tables, true, df, apiKey, day) ==
              Outcome(false, (tables - {TempLoadName(c.tableName), TempInsertName(c.tableName)})[TempLoadName(c.tableName) := []])
  {
  }

  /** The outcome when the production table is missing. */
  lemma ProcessDateNoTable(c: Config, tables: map<string, seq<Row>>, df: Frame, apiKey: string, day: string,
                           loaded: seq<Row>)
    requires Loaded(c, df, apiKey) == Ok(loaded) && c.tableName !in tables
    ensures ProcessDateOutcome(c, tables, true, df, apiKey, day) ==
              Outcome(false, (tables - {TempLoadName(c.tableName), TempInsertName(c.tableName)})[TempLoadName(c.tableName) := loaded])
  {
  }

  /** The outcome of a day that completes. */
  lemma ProcessDateDone(c: Config, tables: map<string, seq<Row>>, df: Frame, apiKey: string, day: string,
                        loaded: seq<Row>)
    requires Loaded(c, df, apiKey) == Ok(loaded) && c.tableName in tables
    ensures var prod := tables[c.tableName];
      ProcessDateOutcome(c, tables, true, df, apiKey, day) ==
        Outcome(true, (tables - {TempLoadName(c.tableName), TempInsertName(c.tableName)})
                        [c.tableName := prod + Inserted(prod, loaded, day, c.keyFields, Names(c.dbFields))])
  {
  }

  /** Dropping two tables and appending to a third changes nothing else. */
  lemma AppendOnly<T>(m: map<string, seq<T>>, l: string, i: string, p: string, extra: seq<T>)
    requires l != p && i != p && p in m
    ensures var after := (m - {l, i})[p := m[p] + extra];
      && l !in after && i !in after && p in after && m[p] <= after[p]
      && forall t :: t in m && t != p && t != l && t != i ==> t in after && after[t] == m[t]
  {
  }

  /** No row goes in whose key the production table already holds for the day, while every
      loaded row with a new key goes in, over the database fields, provided the key fields
      are database fields. */
  lemma InsertedKeys(prod: seq<Row>, loaded: seq<Row>, day: string, keys: seq<string>, names: seq<string>)
    requires forall k :: 0 <= k < |keys| ==> keys[k] in names
    ensures var ins := Inserted(prod, loaded, day, keys, names);
      && (forall j :: 0 <= j < |ins| ==> KeyOf(ins[j], keys) !in KeySet(DayRows(prod, day), keys))
      && (forall i :: 0 <= i < |loaded| && KeyOf(loaded[i], keys) !in KeySet(DayRows(prod, day), keys)
            ==> Restrict(loaded[i], names) in ins)
  {
    var taken := KeySet(DayRows(prod, day), keys);
    var absent := Absent(loaded, taken, keys);
    var ins := Inserted(prod, loaded, day, keys, names);
    forall j | 0 <= j < |ins|
      ensures KeyOf(ins[j], keys) !in taken
    {
      RestrictKeeps(absent[j], keys, names);
    }
    forall i | 0 <= i < |loaded| && KeyOf(loaded[i], keys) !in taken
      ensures Restrict(loaded[i], names) in ins
    {
      var j :| 0 <= j < |absent| && absent[j] == loaded[i];
      assert ins[j] == Restrict(loaded[i], names);
    }
  }

  /** Restricting a row to columns that include the key columns keeps its key. */
  lemma RestrictKeeps(row: Row, keys: seq<string>, names: seq<string>)
    requires forall k :: 0 <= k < |keys| ==> keys[k] in names
    ensures KeyOf(Restrict(row, names), keys) == KeyOf(row, keys)
  {
    var r := Restrict(row, names);
    forall k | 0 <= k < |keys|
      ensures Cell(r, keys[k]) == Cell(row, keys[k])
    {
    }
  }

  /** Loading the same day again adds nothing, when the export's rows all carry that day in
      `EventDate` and `EventDate` and the key fields are database fields. */
  lemma {:induction false} InsertedIdempotent(prod: seq<Row>, loaded: seq<Row>, day: string, keys: seq<string>, names: seq<string>)
    requires forall k :: 0 <= k < |keys| ==> keys[k] in names
    requires "EventDate" in names
    requires forall i :: 0 <= i < |loaded| ==> Cell(loaded[i], "EventDate") == Text(day)
    ensures var added := Inserted(prod, loaded, day, keys, names);
      Inserted(prod + added, loaded, day, keys, names) == []
  {
    var added := Inserted(prod, loaded, day, keys, names);
    var after := prod + added;
    var taken := KeySet(DayRows(prod, day), keys);
    var absent := Absent(loaded, taken, keys);
    var takenAfter := KeySet(DayRows(after, day), keys);
    forall i | 0 <= i < |loaded|
      ensures KeyOf(loaded[i], keys) in takenAfter
    {
      var key := KeyOf(loaded[i], keys);
      if key in taken {
        var j :| 0 <= j < |DayRows(prod, day)| && KeyOf(DayRows(prod, day)[j], keys) == key;
        var row := DayRows(prod, day)[j];
        var m :| 0 <= m < |prod| && prod[m] == row;
        assert after[m] == row;
        assert row in DayRows(after, day);
        InSet(DayRows(after, day), row, keys);
      } else {
        var j :| 0 <= j < |absent| && absent[j] == loaded[i];
        var row := Restrict(loaded[i], names);
        assert added[j] == row;
        assert after[|prod| + j] == row;
        assert Cell(row, "EventDate") == Text(day);
        assert row in DayRows(after, day);
        RestrictKeeps(loaded[i], keys, names);
        InSet(DayRows(after, day), row, keys);
      }
    }
    AbsentNone(loaded, takenAfter, keys);
  }

  /** Processing a day a second time with the same export changes nothing, when the key
      fields and `EventDate` are database fields and every row the load table receives
      carries that day in `EventDate`. */
  lemma ProcessDateTwice(c: Config, tables: map<string, seq<Row>>, df: Frame, apiKey: string, day: string)
    requires ProcessDateOutcome(c, tables, true, df, apiKey, day).ok
    requires forall k :: 0 <= k < |c.keyFields| ==> c.keyFields[k] in Names(c.dbFields)
    requires "EventDate" in Names(c.dbFields)
    requires Loaded(c, df, apiKey).Ok?
    requires forall i :: 0 <= i < |Loaded(c, df, apiKey).value| ==> Cell(Loaded(c, df, apiKey).value[i], "EventDate") == Text(day)
    ensures var after := ProcessDateOutcome(c, tables, true, df, apiKey, day).tables;
      ProcessDateOutcome(c, after, true, df, apiKey, day) == Outcome(true, after)
  {
    TempNamesDistinct(c.tableName);
    var loaded := Loaded(c, df, apiKey).value;
    var names := Names(c.dbFields);
    var prod := tables[c.tableName];
    var added := Inserted(prod, loaded, day, c.keyFields, names);
    var after := ProcessDateOutcome(c, tables, true, df, apiKey, day).tables;
    ProcessDateEffect(c, tables, true, df, apiKey, day);
    ProcessDateDone(c, tables, df, apiKey, day, loaded);
    assert after[c.tableName] == prod + added;
    InsertedIdempotent(prod, loaded, day, c.keyFields, names);
    ProcessDateDone(c, after, df, apiKey, day, loaded);
    Reapplied(after, TempLoadName(c.tableName), TempInsertName(c.tableName), c.tableName);
  }

  lemma Reapplied<T>(m: map<string, seq<T>>, l: string, i: string, p: string)
    requires l !in m && i !in m && p in m
    ensures (m - {l, i})[p := m[p] + []] == m
  {
    assert m[p] + [] == m[p];
    assert (m - {l, i}).Keys == m.Keys;
  }

  lemma InSet(rows: seq<Row>, row: Row, keys: seq<string>)
    requires row in rows
    ensures KeyOf(row, keys) in KeySet(rows, keys)
  {
    var j :| 0 <= j < |rows| && rows[j] == row;
  }

  // ----- the whole window -----

  /** `logs_api_client.load(api_key, source, fields, day, day)`, given as a function: the
      day's frame, or the error text of the answer that ended the polling (`ValueError`). */
  type Export = (string, string, seq<string>, string) -> Result<Frame, string>

  /** `_process_date` as a whole. The export comes first, so when it raises no table has
      been touched and the day fails with the tables as they were. */
  function DayOutcome(c: Config, fetch: Export, tables: map<string, seq<Row>>, dbExists: bool,
                      apiKey: string, day: string): Outcome
  {
    match fetch(apiKey, c.sourceName, c.loadFields, day)
    case Err(_) => Outcome(false, tables)
    case Ok(df) => ProcessDateOutcome(c, tables, dbExists, df, apiKey, day)
  }

  /** The (API key, day) pairs in the order `update` visits them: API keys outer, days
      inner. */
  function Jobs(apiKeys: seq<string>, days: seq<string>): (jobs: seq<(string, string)>)
  {
    if apiKeys == [] then []
    else Jobs(apiKeys[..|apiKeys| - 1], days) + KeyJobs(apiKeys[|apiKeys| - 1], days)
  }

  function KeyJobs(apiKey: string, days: seq<string>): (jobs: seq<(string, string)>)
    ensures |jobs| == |days| && forall j :: 0 <= j < |days| ==> jobs[j] == (apiKey, days[j])
  {
    seq(|days|, j requires 0 <= j < |days| => (apiKey, days[j]))
  }

  /** The job at position `i * |days| + j` is API key `i` on day `j`. */
  lemma {:induction false} JobsAt(apiKeys: seq<string>, days: seq<string>, i: nat, j: nat)
    requires i < |apiKeys| && j < |days|
    ensures i * |days| + j < |Jobs(apiKeys, days)|
    ensures Jobs(apiKeys, days)[i * |days| + j] == (apiKeys[i], days[j])
    decreases |apiKeys|
  {
    var n := |apiKeys|;
    var init := apiKeys[..n - 1];
    JobsLength(init, days);
    if i < n - 1 {
      JobsAt(init, days, i, j);
      assert init[i] == apiKeys[i];
      assert i * |days| + j < (i + 1) * |days| <= (n - 1) * |days| by {
        MulMonotone(i + 1, n - 1, |days|);
      }
    }
  }

  lemma {:induction false} JobsLength(apiKeys: seq<string>, days: seq<string>)
    ensures |Jobs(apiKeys, days)| == |apiKeys| * |days|
    decreases |apiKeys|
  {
    if apiKeys != [] {
      JobsLength(apiKeys[..|apiKeys| - 1], days);
      MulSucc(|apiKeys| - 1, |days|);
    }
  }

  lemma MulSucc(a: nat, c: nat)
    ensures (a + 1) * c == a * c + c
  {
  }

  lemma MulMonotone(a: nat, b: nat, c: nat)
    requires a <= b
    ensures a * c <= b * c
  {
  }

  /** The jobs run one after the other, stopping at the first that fails. */
  function RunJobs(c: Config, fetch: Export, tables: map<string, seq<Row>>, dbExists: bool,
                   jobs: seq<(string, string)>): Outcome
  {
    if jobs == [] then Outcome(true, tables)
    else
      var before := RunJobs(c, fetch, tables, dbExists, jobs[..|jobs| - 1]);
      var job := jobs[|jobs| - 1];
      if !before.ok then before
      else DayOutcome(c, fetch, before.tables, dbExists, job.0, job.1)
  }

  /** A job that fails ends `update`: the jobs after it change nothing. */
  lemma {:induction false} RunJobsStops(c: Config, fetch: Export, tables: map<string, seq<Row>>, dbExists: bool,
                                        jobs: seq<(string, string)>, rest: seq<(string, string)>)
    requires !RunJobs(c, fetch, tables, dbExists, jobs).ok
    ensures RunJobs(c, fetch, tables, dbExists, jobs + rest) == RunJobs(c, fetch, tables, dbExists, jobs)
    decreases |rest|
  {
    if rest == [] {
      assert jobs + rest == jobs;
    } else {
      var init := rest[..|rest| - 1];
      RunJobsStops(c, fetch, tables, dbExists, jobs, init);
      assert (jobs + rest)[..|jobs + rest| - 1] == jobs + init;
    }
  }

  /** Without a database no job completes and nothing changes. */
  lemma {:induction false} RunJobsNoDatabase(c: Config, fetch: Export, tables: map<string, seq<Row>>,
                                             jobs: seq<(string, string)>)
    requires jobs != []
    ensures RunJobs(c, fetch, tables, false, jobs) == Outcome(false, tables)
    decreases |jobs|
  {
    if |jobs| > 1 {
      RunJobsNoDatabase(c, fetch, tables, jobs[..|jobs| - 1]);
    }
  }

  lemma RunJobsStep(c: Config, fetch: Export, tables: map<string, seq<Row>>, dbExists: bool,
                    jobs: seq<(string, string)>, job: (string, string))
    ensures var before := RunJobs(c, fetch, tables, dbExists, jobs);
      RunJobs(c, fetch, tables, dbExists, jobs + [job])
        == if !before.ok then before
           else DayOutcome(c, fetch, before.tables, dbExists, job.0, job.1)
  {
    assert (jobs + [job])[..|jobs|] == jobs;
  }

  /** `[f(start), f(start + 1), ..., f(start + n - 1)]` */
  function Tabulate<T>(start: int, n: nat, f: int -> T): (r: seq<T>)
    ensures |r| == n
  {
    if n == 0 then [] else Tabulate(start, n - 1, f) + [f(start + n - 1)]
  }

  lemma {:induction false} TabulateAt<T>(start: int, n: nat, f: int -> T, j: nat)
    requires j < n
    ensures Tabulate(start, n, f)[j] == f(start + j)
  {
    if j < n - 1 {
      TabulateAt(start, n - 1, f, j);
    }
  }

  /** Entries of a tabulation at values `f` tells apart are different. */
  lemma TabulateDistinct<T>(start: int, n: nat, f: int -> T, j: nat, k: nat, a: int, b: int)
    requires j < n && k < n && a == start + j && b == start + k && f(a) != f(b)
    ensures Tabulate(start, n, f)[j] != Tabulate(start, n, f)[k]
  {
    TabulateAt(start, n, f, j);
    TabulateAt(start, n, f, k);
  }

  /** `strftime('%Y-%m-%d')` of a day; the window holds no day outside the calendar. */
  function DayText(d: int): string
  {
    if ValidDate(d) then FormatDate(d) else ""
  }

  /** `pd.date_range(first, first + count - 1)` as `'%Y-%m-%d'` texts. */
  function DayTexts(first: int, count: nat): (days: seq<string>)
    ensures |days| == count
  {
    Tabulate(first, count, DayText)
  }

  /** Text `j` of the range is that of day `first + j`. */
  lemma DayTextsAt(first: int, count: nat, j: nat)
    requires j < count
    ensures DayTexts(first, count)[j] == DayText(first + j)
  {
    TabulateAt(first, count, DayText, j);
  }

  /** Within the calendar, that text is the day's `'%Y-%m-%d'`. */
  lemma DayTextAt(first: Date, count: nat, j: nat)
    requires ValidDate(first) && ValidDate(first + count - 1) && j < count
    ensures DayTexts(first, count)[j] == FormatDate(first + j)
  {
    DayTextsAt(first, count, j);
  }

  /** Different days of the calendar have different texts. */
  lemma DayTextDistinct(a: Date, b: Date)
    requires ValidDate(a) && ValidDate(b) && a != b
    ensures DayText(a) != DayText(b)
  {
    if DayText(a) == DayText(b) {
      FormatDateInjective(a, b);
    }
  }

  /** A range of calendar days names each day once. */
  lemma DayTextsDistinct(first: Date, count: nat, j: nat, k: nat)
    requires ValidDate(first) && ValidDate(first + count - 1) && j < k < count
    ensures DayTexts(first, count)[j] != DayTexts(first, count)[k]
  {
    var a, b := first + j, first + k;
    DayTextDistinct(a, b);
    TabulateDistinct(first, count, DayText, j, k, a, b);
  }

  /** The updater of one source into one table. */
  class LegacyUpdater {
    const config: Config
    const fetch: Export
    var databaseExists: bool
    var tables: map<string, seq<Row>>

    constructor(config: Config, fetch: Export, databaseExists: bool, tables: map<string, seq<Row>>)
      ensures this.config == config && this.fetch == fetch
      ensures this.databaseExists == databaseExists && this.tables == tables
    {
      this.config := config;
      this.fetch := fetch;
      this.databaseExists := databaseExists;
      this.tables := tables;
    }

    /** `prepare`: the database and the production table exist afterwards; an existing table
        is left as it is. */
    method Prepare()
      modifies this
      ensures databaseExists && config.tableName in tables
      ensures config.tableName in old(tables) ==> tables == old(tables)
      ensures config.tableName !in old(tables) ==> tables == old(tables)[config.tableName := []]
    {
      if !databaseExists {
        databaseExists := true;
      }
      if config.tableName !in tables {
        tables := tables[config.tableName := []];
      }
    }

    /** `_process_date` */
    method ProcessDate(apiKey: string, day: string) returns (ok: bool)
      modifies this
      ensures databaseExists == old(databaseExists)
      ensures fetch(apiKey, config.sourceName, config.loadFields, day).Err? ==> !ok && tables == old(tables)
      ensures Outcome(ok, tables) == DayOutcome(config, fetch, old(tables), old(databaseExists), apiKey, day)
    {
      var tempLoad, tempInsert := TempLoadName(config.tableName), TempInsertName(config.tableName);
      TempNamesDistinct(config.tableName);
      var answer := fetch(apiKey, config.sourceName, config.loadFields, day);
      if answer.Err? {
        return false;
      }
      var df := answer.value;
      ghost var given := df;
      df := Frame(df.columns, Distinct(df.rows));
      df := SetColumn(df, "api_key", seq(|df.rows|, _ => Text(apiKey)));
      df := ApplyConverters(df, config.converters);
      assert df == PreparedFrame(config, given, apiKey);
      ghost var expected := ProcessDateOutcome(config, tables, databaseExists, given, apiKey, day);
      if !databaseExists {
        ProcessDateNoDatabase(config, tables, given, apiKey, day);
        assert expected == Outcome(false, tables);
        return false;
      }
      var t := tables;
      t := t - {tempLoad};
      t := t - {tempInsert};
      DropBoth(tables, tempLoad, tempInsert);
      t := t[tempLoad := []];
      var selected := Select(df, config.exportFields);
      if selected.Err? || (selected.value.rows != [] && |config.exportFields| != |config.dbFields|) {
        ProcessDateUnselected(config, tables, given, apiKey, day);
        assert expected == Outcome(false, t);
        tables := t;
        return false;
      }
      var loaded := if selected.value.rows == [] then []
                    else LoadRows(selected.value.rows, config.exportFields, Names(config.dbFields));
      assert Loaded(config, given, apiKey) == Ok(loaded);
      t := t[tempLoad := t[tempLoad] + loaded];
      if config.tableName !in t {
        Appended(tables - {tempLoad, tempInsert}, tempLoad, loaded);
        ProcessDateNoTable(config, tables, given, apiKey, day, loaded);
        assert expected == Outcome(false, t);
        tables := t;
        return false;
      }
      var prod := t[config.tableName];
      ghost var inserted := Inserted(prod, loaded, day, config.keyFields, Names(config.dbFields));
      DropTemps(tables, tempLoad, tempInsert, config.tableName, loaded, inserted);
      t := t[tempInsert := Inserted(prod, t[tempLoad], day, config.keyFields, Names(config.dbFields))];
      t := t[config.tableName := prod + t[tempInsert]];
      t := t - {tempLoad};
      t := t - {tempInsert};
      ProcessDateDone(config, tables, given, apiKey, day, loaded);
      assert expected == Outcome(true, t);
      tables := t;
      ok := true;
    }

    /** `update(api_keys, days_count)` on the day `today` the clock gives: every API key,
        every day from `today - days_count` to `today`, until a day fails. A window that
        would start before year 1 fails before anything happens (`OverflowError`). */
    method Update(apiKeys: seq<string>, today: Date, daysCount: nat) returns (ok: bool)
      requires ValidDate(today)
      modifies this
      ensures databaseExists == old(databaseExists)
      ensures !ValidDate(today - daysCount) ==> !ok && tables == old(tables)
      ensures ValidDate(today - daysCount) ==>
        Outcome(ok, tables) == RunJobs(config, fetch, old(tables), old(databaseExists),
                                       Jobs(apiKeys, DayTexts(today - daysCount, daysCount + 1)))
    {
      if !ValidDate(today - daysCount) {
        return false;
      }
      var days := DayTexts(today - daysCount, daysCount + 1);
      for i := 0 to |apiKeys|
        invariant databaseExists == old(databaseExists)
        invariant Outcome(true, tables) == RunJobs(config, fetch, old(tables), old(databaseExists), Jobs(apiKeys[..i], days))
      {
        JobsAround(apiKeys, i, days);
        ok := UpdateKey(apiKeys[i], days, old(tables), old(databaseExists), Jobs(apiKeys[..i], days),
                        Rest(apiKeys, i + 1, days));
        if !ok {
          return;
        }
        JobsSnoc(apiKeys, i, days);
      }
      assert apiKeys[..|apiKeys|] == apiKeys;
      ok := true;
    }

    /** The inner loop of `update` for one API key: every day in turn, until a day fails.
        `done` are the jobs run before, `rest` those that would follow. */
    method UpdateKey(apiKey: string, days: seq<string>, ghost t0: map<string, seq<Row>>, ghost db0: bool,
                     ghost done: seq<(string, string)>, ghost rest: seq<(string, string)>) returns (ok: bool)
      requires databaseExists == db0
      requires Outcome(true, tables) == RunJobs(config, fetch, t0, db0, done)
      modifies this
      ensures databaseExists == db0
      ensures ok ==> Outcome(true, tables) == RunJobs(config, fetch, t0, db0, done + KeyJobs(apiKey, days))
      ensures !ok ==> Outcome(false, tables) == RunJobs(config, fetch, t0, db0, done + KeyJobs(apiKey, days) + rest)
    {
      ghost var keyJobs := KeyJobs(apiKey, days);
      assert done + keyJobs[..0] == done;
      for j := 0 to |days|
        invariant databaseExists == db0
        invariant Outcome(true, tables) == RunJobs(config, fetch, t0, db0, done + keyJobs[..j])
      {
        ghost var prefix := done + keyJobs[..j];
        RunJobsStep(config, fetch, t0, db0, prefix, (apiKey, days[j]));
        TakeSnoc(keyJobs, j);
        AppendAssoc(done, keyJobs[..j], [(apiKey, days[j])]);
        ok := ProcessDate(apiKey, days[j]);
        if !ok {
          RunJobsStops(config, fetch, t0, db0, prefix + [(apiKey, days[j])], keyJobs[j + 1..] + rest);
          AppendSplit(done, keyJobs, j + 1, rest);
          return;
        }
      }
      assert keyJobs[..|days|] == keyJobs;
      ok := true;
    }
  }

  /** The tables the successful path of `_process_date` passes through end where the two
      temporary tables are gone and the production table has its rows. */
  lemma DropTemps<T>(m: map<string, seq<T>>, l: string, i: string, p: string, loaded: seq<T>, inserted: seq<T>)
    requires l != i && l != p && i != p && p in m
    ensures var created := ((m - {l}) - {i})[l := []];
      var filled := created[l := created[l] + loaded];
      p in filled && filled[p] == m[p] && filled[l] == loaded &&
      ((filled[i := inserted][p := m[p] + inserted] - {l}) - {i}) == (m - {l, i})[p := m[p] + inserted]
  {
    var created := ((m - {l}) - {i})[l := []];
    var filled := created[l := created[l] + loaded];
    assert created[l] + loaded == loaded;
    var final := (filled[i := inserted][p := m[p] + inserted] - {l}) - {i};
    var goal := (m - {l, i})[p := m[p] + inserted];
    assert final.Keys == goal.Keys;
  }

  lemma DropBoth<T>(m: map<string, seq<T>>, l: string, i: string)
    ensures (m - {l}) - {i} == m - {l, i}
  {
  }

  lemma Appended<T>(m: map<string, seq<T>>, l: string, loaded: seq<T>)
    ensures m[l := []][l := [] + loaded] == m[l := loaded]
  {
    assert [] + loaded == loaded;
  }

  lemma TakeSnoc<T>(s: seq<T>, j: nat)
    requires j < |s|
    ensures s[..j + 1] == s[..j] + [s[j]]
  {
  }

  lemma JobsSnoc(apiKeys: seq<string>, i: nat, days: seq<string>)
    requires i < |apiKeys|
    ensures Jobs(apiKeys[..i + 1], days) == Jobs(apiKeys[..i], days) + KeyJobs(apiKeys[i], days)
  {
    assert apiKeys[..i + 1][..i] == apiKeys[..i];
  }

  lemma AppendSplit<T>(a: seq<T>, k: seq<T>, j: nat, r: seq<T>)
    requires j <= |k|
    ensures a + k + r == a + k[..j] + (k[j..] + r)
  {
    assert k == k[..j] + k[j..];
  }

  /** The jobs of the API keys from position `i` on. */
  function Rest(apiKeys: seq<string>, i: nat, days: seq<string>): seq<(string, string)>
    requires i <= |apiKeys|
  {
    Jobs(apiKeys[i..], days)
  }

  lemma JobsAround(apiKeys: seq<string>, i: nat, days: seq<string>)
    requires i < |apiKeys|
    ensures Jobs(apiKeys, days) == Jobs(apiKeys[..i], days) + KeyJobs(apiKeys[i], days) + Rest(apiKeys, i + 1, days)
  {
    var front := apiKeys[..i + 1];
    JobsAppend(front, apiKeys[i + 1..], days);
    assert front + apiKeys[i + 1..] == apiKeys;
    assert front[..i] == apiKeys[..i];
  }

  lemma {:induction false} JobsAppend(a: seq<string>, b: seq<string>, days: seq<string>)
    ensures Jobs(a + b, days) == Jobs(a, days) + Jobs(b, days)
    decreases |b|
  {
    if b == [] {
      assert a + b == a;
    } else {
      var init := b[..|b| - 1];
      JobsAppend(a, init, days);
      assert (a + b)[..|a + b| - 1] == a + init;
      assert (a + b)[|a + b| - 1] == b[|b| - 1];
    }
  }
}
