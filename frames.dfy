/** The rows the loader moves around. A pandas data frame read from the export's CSV and a
    ClickHouse table both hold rows of named cells; a data frame also has its columns in
    order. */
module Frames {
  import opened Common

  /** A cell: empty (`NaN` in pandas, `NULL` in ClickHouse), a whole number, or text. */
  datatype Value = Missing | Number(n: int) | Text(s: string)

  /** A row: its cells by column name. */
  type Row = map<string, Value>

  /** A data frame: its columns in order, and its rows. */
  datatype Frame = Frame(columns: seq<string>, rows: seq<Row>)

  /** The cell of a column, empty where the row has none. */
  function Cell(row: Row, col: string): Value
  {
    if col in row then row[col] else Missing
  }

  /** The cells of some columns, in their order: the key a row has for a list of key
      columns. */
  function KeyOf(row: Row, cols: seq<string>): (k: seq<Value>)
    ensures |k| == |cols|
    ensures forall i :: 0 <= i < |cols| ==> k[i] == Cell(row, cols[i])
  {
    if cols == [] then [] else KeyOf(row, cols[..|cols| - 1]) + [Cell(row, cols[|cols| - 1])]
  }

  /** The cells of a row under the given columns only. */
  function Restrict(row: Row, cols: seq<string>): (r: Row)
    ensures r.Keys == row.Keys * set c | c in cols
    ensures forall c :: c in r ==> r[c] == row[c]
  {
    map c | c in row && c in cols :: row[c]
  }

  /** The first of `cols` that is not a column of the frame. */
  function FirstMissing(cols: seq<string>, columns: seq<string>): (r: Option<string>)
    ensures r.None? <==> forall k :: 0 <= k < |cols| ==> cols[k] in columns
    ensures r.Some? ==> r.value in cols && r.value !in columns
  {
    if cols == [] then None
    else if cols[0] !in columns then Some(cols[0])
    else
      var r := FirstMissing(cols[1..], columns);
      assert forall k :: 1 <= k < |cols| ==> cols[k] == cols[1..][k - 1];
      r
  }

  /** `df[cols]`: the named columns in the given order, or `KeyError` naming a column the
      frame does not have. */
  function Select(df: Frame, cols: seq<string>): (r: Result<Frame, string>)
    ensures r.Ok? <==> forall k :: 0 <= k < |cols| ==> cols[k] in df.columns
    ensures r.Err? ==> r.error in cols && r.error !in df.columns
    ensures r.Ok? ==> r.value.columns == cols && |r.value.rows| == |df.rows|
    ensures r.Ok? ==> forall i :: 0 <= i < |df.rows| ==> r.value.rows[i] == Restrict(df.rows[i], cols)
  {
    match FirstMissing(cols, df.columns)
    case Some(c) => Err(c)
    case None => Ok(Frame(cols, seq(|df.rows|, i requires 0 <= i < |df.rows| => Restrict(df.rows[i], cols))))
  }

  /** `df[name] = values`: the column is set in every row, and added last when new. */
  function SetColumn(df: Frame, name: string, values: seq<Value>): (r: Frame)
    requires |values| == |df.rows|
    ensures r.columns == if name in df.columns then df.columns else df.columns + [name]
    ensures |r.rows| == |df.rows|
    ensures forall i :: 0 <= i < |df.rows| ==> r.rows[i] == df.rows[i][name := values[i]]
  {
    Frame(if name in df.columns then df.columns else df.columns + [name],
          seq(|df.rows|, i requires 0 <= i < |df.rows| => df.rows[i][name := values[i]]))
  }
}
