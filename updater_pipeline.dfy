/** `updater/updater.py`: loading one source for one application over a range of days.
    For each day, ascending, the day's partition (the table suffix `{app_id}_{YYYYMMDD}`) is
    recreated, the day is exported from 00:00:00 to 23:59:59.999999, and every chunk of the
    export, in stream order, is processed (types ensured, system columns added, converters
    applied, on a copy) and inserted into that partition. The source's controller is made
    and prepared once and then kept.

    `recreate_table(suffix)` and `insert_data(df, suffix)` are calls on the source's
    controller that `updater/db_controller.py` does not provide; they are recorded as
    events, in order, and not given a meaning. */
module UpdaterPipeline {
  import opened Common
  import opened Dicts
  import opened Calendar
  import opened Frames
  import opened DbControllers
  import opened Clickhouse

  /** `'{}_{}'.format(app_id, date.strftime('%Y%m%d'))` */
  function TableSuffix(appId: string, d: Date): string
    requires ValidDate(d)
  {
    appId + "_" + FormatCompact(d)
  }

  /** Each application's day has a suffix of its own. */
  lemma TableSuffixIff(a1: string, d1: Date, a2: string, d2: Date)
    requires ValidDate(d1) && ValidDate(d2)
    ensures TableSuffix(a1, d1) == TableSuffix(a2, d2) <==> a1 == a2 && d1 == d2
  {
    if TableSuffix(a1, d1) == TableSuffix(a2, d2) {
      var s := TableSuffix(a1, d1);
      assert |a1| == |a2|;
      assert a1 == s[..|a1|] && a2 == s[..|a2|];
      assert FormatCompact(d1) == s[|a1| + 1..] == FormatCompact(d2);
      FormatCompactInjective(d1, d2);
    }
  }

  // ----- `_ensure_types` -----

  /** The columns `_ensure_types` fills: those of the frame whose declared type names an
      integer type (holds `Int`). */
  function IntColumns(types: Dict<string, string>, columns: seq<string>): set<string>
  {
    set k | 0 <= k < |types| && types[k].0 in columns && Contains(types[k].1, "Int") :: types[k].0
  }

  /** A row with its empty cells in the given columns set to 0. */
  function FilledRow(row: Row, cols: set<string>): Row
  {
    map c | c in row.Keys + cols :: if c in cols && Cell(row, c).Missing? then Number(0) else Cell(row, c)
  }

  /** The frame `_ensure_types` returns. */
  function EnsuredTypes(df: Frame, types: Dict<string, string>): Frame
  {
    var cols := IntColumns(types, df.columns);
    Frame(df.columns, seq(|df.rows|, i requires 0 <= i < |df.rows| => FilledRow(df.rows[i], cols)))
  }

  /** After `_ensure_types` the empty cells of the integer columns hold 0, and every other
      cell, the columns and the rows are as they were. */
  lemma EnsuredTypesCells(df: Frame, types: Dict<string, string>, i: nat, c: string)
    requires i < |df.rows|
    ensures var r := EnsuredTypes(df, types);
      && r.columns == df.columns && |r.rows| == |df.rows|
      && (c in IntColumns(types, df.columns) ==>
            Cell(r.rows[i], c) == if Cell(df.rows[i], c).Missing? then Number(0) else Cell(df.rows[i], c))
      && (c !in IntColumns(types, df.columns) ==> Cell(r.rows[i], c) == Cell(df.rows[i], c))
  {
  }

  /** `series.fillna(0)` on one column. */
  function FillCell(row: Row, col: string): Row
  {
    if Cell(row, col).Missing? then row[col := Number(0)] else row
  }

  function FillColumn(df: Frame, col: string): Frame
  {
    Frame(df.columns, seq(|df.rows|, i requires 0 <= i < |df.rows| => FillCell(df.rows[i], col)))
  }

  lemma FilledNothing(row: Row)
    ensures FilledRow(row, {}) == row
  {
  }

  lemma FillCellStep(row: Row, cols: set<string>, col: string)
    ensures FillCell(FilledRow(row, cols), col) == FilledRow(row, cols + {col})
  {
    var before := FilledRow(row, cols);
    var after := FilledRow(row, cols + {col});
    if Cell(before, col).Missing? {
      assert col !in cols;
      assert before[col := Number(0)] == after;
    } else {
      assert before == after;
    }
  }

  lemma IntColumnsStep(types: Dict<string, string>, columns: seq<string>, k: nat)
    requires k < |types|
    ensures IntColumns(types[..k + 1], columns) ==
      IntColumns(types[..k], columns) + (if types[k].0 in columns && Contains(types[k].1, "Int") then {types[k].0} else {})
  {
    var a, b := types[..k + 1], types[..k];
    assert forall j :: 0 <= j < k ==> a[j] == b[j];
  }

  /** `_ensure_types`: for each declared column the frame has, in order, an integer column
      has its empty cells filled with 0. */
  method EnsureTypes(df: Frame, types: Dict<string, string>) returns (r: Frame)
    ensures r == EnsuredTypes(df, types)
  {
    r := df;
    forall i | 0 <= i < |df.rows|
      ensures FilledRow(df.rows[i], {}) == df.rows[i]
    {
      FilledNothing(df.rows[i]);
    }
    assert IntColumns(types[..0], df.columns) == {};
    for k := 0 to |types|
      invariant r == EnsuredTypes(df, types[..k])
    {
      var col := types[k].0;
      var before := IntColumns(types[..k], df.columns);
      IntColumnsStep(types, df.columns, k);
      if col in r.columns && Contains(types[k].1, "Int") {
        forall i | 0 <= i < |df.rows|
          ensures FillCell(FilledRow(df.rows[i], before), col) == FilledRow(df.rows[i], before + {col})
        {
          FillCellStep(df.rows[i], before, col);
        }
        var next := FillColumn(r, col);
        assert |next.rows| == |df.rows|;
        assert forall i :: 0 <= i < |df.rows| ==> next.rows[i] == FilledRow(df.rows[i], before + {col});
        assert next == EnsuredTypes(df, types[..k + 1]);
        r := next;
      } else {
        assert IntColumns(types[..k + 1], df.columns) == before;
      }
    }
    assert types[..|types|] == types;
  }

  // ----- system columns and converters -----

  /** `_append_system_fields`: the application in `app_id` and the load time (whole unix
      seconds of the clock reading `now`) in `load_datetime`, in every row. */
  function AppendSystemFields(df: Frame, appId: string, now: int): Frame
  {
    var withApp := SetColumn(df, "app_id", seq(|df.rows|, _ => Text(appId)));
    SetColumn(withApp, "load_datetime", seq(|df.rows|, _ => Number(now)))
  }

  /** A converter computes a column from the other cells of a row. */
  type Converter = Row -> Value

  /** `df[name] = converter(df)` */
  function Convert(df: Frame, name: string, converter: Converter): Frame
  {
    SetColumn(df, name, seq(|df.rows|, i requires 0 <= i < |df.rows| => converter(df.rows[i])))
  }

  /** The frame after the converters, applied in order: each one sees the columns the
      earlier ones wrote. */
  function Converted(df: Frame, converters: seq<(string, Converter)>): (r: Frame)
    ensures |r.rows| == |df.rows|
  {
    if converters == [] then df
    else
      var last := converters[|converters| - 1];
      Convert(Converted(df, converters[..|converters| - 1]), last.0, last.1)
  }

  predicate Writes(converters: seq<(string, Converter)>, c: string)
  {
    exists k :: 0 <= k < |converters| && converters[k].0 == c
  }

  /** A column no converter writes keeps its cells. */
  lemma {:induction false} ConvertedKeeps(df: Frame, converters: seq<(string, Converter)>, i: nat, c: string)
    requires i < |df.rows| && !Writes(converters, c)
    ensures Cell(Converted(df, converters).rows[i], c) == Cell(df.rows[i], c)
    decreases |converters|
  {
    if converters != [] {
      var init := converters[..|converters| - 1];
      assert !Writes(init, c) by {
        forall k | 0 <= k < |init|
          ensures init[k].0 != c
        {
          assert init[k] == converters[k];
        }
      }
      ConvertedKeeps(df, init, i, c);
      assert converters[|converters| - 1].0 != c;
    }
  }

  /** Applying the converters is applying the first ones, then the rest. */
  lemma {:induction false} ConvertedSplit(df: Frame, converters: seq<(string, Converter)>, k: nat)
    requires k <= |converters|
    ensures Converted(df, converters) == Converted(Converted(df, converters[..k]), converters[k..])
    decreases |converters|
  {
    if k < |converters| {
      var init := converters[..|converters| - 1];
      ConvertedSplit(df, init, k);
      assert init[..k] == converters[..k];
      assert init[k..] == converters[k..][..|converters[k..]| - 1];
      assert converters[k..][|converters[k..]| - 1] == converters[|converters| - 1];
    } else {
      assert converters[..k] == converters;
    }
  }

  /** The column of converter `k` holds what it computed from the frame the converters
      before it left, unless a later converter writes the same column. */
  lemma ConvertedWrites(df: Frame, converters: seq<(string, Converter)>, k: nat, i: nat)
    requires k < |converters| && i < |df.rows|
    requires !Writes(converters[k + 1..], converters[k].0)
    ensures Cell(Converted(df, converters).rows[i], converters[k].0)
         == converters[k].1(Converted(df, converters[..k]).rows[i])
  {
    ConvertedSplit(df, converters, k + 1);
    var mid := Converted(df, converters[..k + 1]);
    assert converters[..k + 1][..k] == converters[..k];
    ConvertedKeeps(mid, converters[k + 1..], i, converters[k].0);
  }

  /** `_apply_converters`: each converter, in order, writes its column. */
  method ApplyConverters(df: Frame, converters: seq<(string, Converter)>) returns (r: Frame)
    ensures r == Converted(df, converters)
  {
    r := df;
    for k := 0 to |converters|
      invariant r == Converted(df, converters[..k])
    {
      assert converters[..k + 1][..k] == converters[..k];
      r := Convert(r, converters[k].0, converters[k].1);
    }
    assert converters[..|converters|] == converters;
  }

  /** The frame `_process_data` makes of a chunk. */
  function Processed(appId: string, df: Frame, types: Dict<string, string>,
                     converters: seq<(string, Converter)>, now: int): Frame
  {
    Converted(AppendSystemFields(EnsuredTypes(df, types), appId, now), converters)
  }

  /** `_process_data`: types ensured, system columns added, converters applied. The
      chunk is a value, so the caller's chunk is not changed. */
  method ProcessData(appId: string, df: Frame, types: Dict<string, string>,
                     converters: seq<(string, Converter)>, now: int) returns (r: Frame)
    ensures r == Processed(appId, df, types, converters, now)
  {
    r := EnsureTypes(df, types);
    r := AppendSystemFields(r, appId, now);
    r := ApplyConverters(r, converters);
  }

  /** Every processed row carries the application and the load time, unless a converter
      overwrites them, and an integer column no converter writes has no empty cell. */
  lemma ProcessedCells(appId: string, df: Frame, types: Dict<string, string>,
                       converters: seq<(string, Converter)>, now: int, i: nat, c: string)
    requires i < |df.rows|
    ensures |Processed(appId, df, types, converters, now).rows| == |df.rows|
    ensures !Writes(converters, "app_id") ==>
              Cell(Processed(appId, df, types, converters, now).rows[i], "app_id") == Text(appId)
    ensures !Writes(converters, "load_datetime") ==>
              Cell(Processed(appId, df, types, converters, now).rows[i], "load_datetime") == Number(now)
    ensures c in IntColumns(types, df.columns) && !Writes(converters, c) && c != "app_id" && c != "load_datetime" ==>
              !Cell(Processed(appId, df, types, converters, now).rows[i], c).Missing?
  {
    var ensured := EnsuredTypes(df, types);
    var system := AppendSystemFields(ensured, appId, now);
    EnsuredTypesCells(df, types, i, c);
    if !Writes(converters, "app_id") {
      ConvertedKeeps(system, converters, i, "app_id");
    }
    if !Writes(converters, "load_datetime") {
      ConvertedKeeps(system, converters, i, "load_datetime");
    }
    if !Writes(converters, c) {
      ConvertedKeeps(system, converters, i, c);
    }
  }

  // ----- the updater -----

  /** What the updater asks of the source's controller and of the loader, in order. A
      partition is named by its application and day; its table suffix is
      `TableSuffix(appId, day)`, and `TableSuffixIff` shows the two name the same tables. */
  datatype Event =
    | Recreate(source: string, appId: string, day: Date)
    | Export(source: string, appId: string, since: Instant, until: Instant)
    | Insert(source: string, frame: Frame, appId: string, day: Date)

  /** The clock `_append_system_fields` reads, in unix seconds: `clock(d, k)` is its
      reading while chunk `k` of day `d` is processed. */
  type Clock = (Date, nat) -> int

  /** `f` applied to each element of `xs` together with its position, in order. */
  function MapIndexed<T, U>(xs: seq<T>, f: (T, nat) -> U): (r: seq<U>)
    ensures |r| == |xs|
    decreases |xs|
  {
    if xs == [] then []
    else MapIndexed(xs[..|xs| - 1], f) + [f(xs[|xs| - 1], |xs| - 1)]
  }

  lemma {:induction false} MapIndexedAt<T, U>(xs: seq<T>, f: (T, nat) -> U, k: nat)
    requires k < |xs|
    ensures MapIndexed(xs, f)[k] == f(xs[k], k)
    decreases |xs|
  {
    var n := |xs| - 1;
    if k < n {
      MapIndexedAt(xs[..n], f, k);
    }
  }

  lemma MapIndexedStep<T, U>(xs: seq<T>, f: (T, nat) -> U, k: nat)
    requires k < |xs|
    ensures MapIndexed(xs[..k + 1], f) == MapIndexed(xs[..k], f) + [f(xs[k], k)]
  {
    assert xs[..k + 1][..k] == xs[..k];
  }

  /** `_process_data` of chunk `k` of day `d`, with the clock reading taken for it. */
  function ChunkProcessing(appId: string, types: Dict<string, string>, converters: seq<(string, Converter)>,
                           clock: Clock, d: Date): (Frame, nat) -> Frame
  {
    (df: Frame, k: nat) => Processed(appId, df, types, converters, clock(d, k))
  }

  /** The chunks of day `d` after `_process_data`, in order, each with its own reading of
      the clock. */
  function ProcessedChunks(appId: string, chunks: seq<Frame>, types: Dict<string, string>,
                           converters: seq<(string, Converter)>, clock: Clock, d: Date): seq<Frame>
  {
    MapIndexed(chunks, ChunkProcessing(appId, types, converters, clock, d))
  }

  /** Chunk `k` of the day is processed on its own, with the clock reading taken for it. */
  lemma ProcessedChunksAt(appId: string, chunks: seq<Frame>, types: Dict<string, string>,
                          converters: seq<(string, Converter)>, clock: Clock, d: Date, k: nat)
    requires k < |chunks|
    ensures |ProcessedChunks(appId, chunks, types, converters, clock, d)| == |chunks|
    ensures ProcessedChunks(appId, chunks, types, converters, clock, d)[k]
         == Processed(appId, chunks[k], types, converters, clock(d, k))
  {
    MapIndexedAt(chunks, ChunkProcessing(appId, types, converters, clock, d), k);
  }

  /** One insert into the partition per frame, in order. */
  function Inserts(source: string, frames: seq<Frame>, appId: string, day: Date): (r: seq<Event>)
    ensures |r| == |frames|
  {
    if frames == [] then []
    else Inserts(source, frames[..|frames| - 1], appId, day) + [Insert(source, frames[|frames| - 1], appId, day)]
  }

  lemma {:induction false} InsertsAt(source: string, frames: seq<Frame>, appId: string, day: Date, k: nat)
    requires k < |frames|
    ensures Inserts(source, frames, appId, day)[k] == Insert(source, frames[k], appId, day)
  {
    if k < |frames| - 1 {
      InsertsAt(source, frames[..|frames| - 1], appId, day, k);
    }
  }

  /** `_update_date`: the partition is recreated, the day exported, then every processed
      chunk inserted. */
  function DateEvents(source: string, appId: string, d: Date, frames: seq<Frame>): seq<Event>
    requires ValidDate(d)
  {
    [Recreate(source, appId, d), Export(source, appId, StartOfDay(d), EndOfDay(d))] + Inserts(source, frames, appId, d)
  }

  lemma DateEventsAt(source: string, appId: string, d: Date, frames: seq<Frame>, k: nat)
    requires ValidDate(d) && k < 2 + |frames|
    ensures DateEvents(source, appId, d, frames)[k] ==
      if k == 0 then Recreate(source, appId, d)
      else if k == 1 then Export(source, appId, StartOfDay(d), EndOfDay(d))
      else Insert(source, frames[k - 2], appId, d)
  {
    if k >= 2 {
      InsertsAt(source, frames, appId, d, k - 2);
    }
  }

  /** What the loader's generator does for one window: the chunks it yields, then the
      `LogsApiError` it raises after them, if any. */
  datatype Chunks = Chunks(frames: seq<Frame>, failure: Option<string>)

  /** The loader, as what it does for a source, an application and a window. */
  type Stream = (string, string, Instant, Instant) -> Chunks

  /** The processed chunks of each day: what `update` inserts into the day's partition,
      up to the loader's failure if there is one. */
  function DayFrames(source: string, appId: string, load: Stream, types: Dict<string, string>,
                     converters: seq<(string, Converter)>, clock: Clock): Date -> seq<Frame>
  {
    d => ProcessedChunks(appId, load(source, appId, StartOfDay(d), EndOfDay(d)).frames, types, converters, clock, d)
  }

  /** Whether the load of day `d` raises. */
  predicate DayFails(source: string, appId: string, load: Stream, d: Date)
  {
    load(source, appId, StartOfDay(d), EndOfDay(d)).failure.Some?
  }

  /** How `update` runs the `count` days from `from`: whether every day loaded, and how
      many days ran, up to and including the first whose load raises. */
  function RunDays(source: string, appId: string, load: Stream, from: Date, count: nat): (r: (bool, nat))
    ensures r.1 <= count && (r.0 ==> r.1 == count)
    decreases count
  {
    if count == 0 then (true, 0)
    else
      var before := RunDays(source, appId, load, from, count - 1);
      if !before.0 then before else (!DayFails(source, appId, load, from + count - 1), count)
  }

  /** The run succeeds exactly when no day of the range fails; otherwise it stops at a
      failing day after days that all loaded. */
  lemma {:induction false} RunDaysFacts(source: string, appId: string, load: Stream, from: Date, count: nat)
    ensures var (ok, ran) := RunDays(source, appId, load, from, count);
      (ok <==> forall d :: from <= d < from + count ==> !DayFails(source, appId, load, d))
      && (!ok ==> 0 < ran && DayFails(source, appId, load, from + ran - 1)
                  && forall d :: from <= d < from + ran - 1 ==> !DayFails(source, appId, load, d))
    decreases count
  {
    if count > 0 {
      RunDaysFacts(source, appId, load, from, count - 1);
    }
  }

  lemma RunDaysStep(source: string, appId: string, load: Stream, from: Date, n: nat)
    ensures var before := RunDays(source, appId, load, from, n);
      RunDays(source, appId, load, from, n + 1)
        == if !before.0 then before else (!DayFails(source, appId, load, from + n), n + 1)
  {
  }

  /** Days after a failing one change nothing. */
  lemma {:induction false} RunDaysStops(source: string, appId: string, load: Stream, from: Date, k: nat, count: nat)
    requires k <= count && !RunDays(source, appId, load, from, k).0
    ensures RunDays(source, appId, load, from, count) == RunDays(source, appId, load, from, k)
    decreases count
  {
    if count > k {
      RunDaysStops(source, appId, load, from, k, count - 1);
    }
  }

  lemma InsertsStep(source: string, frames: seq<Frame>, frame: Frame, appId: string, day: Date)
    ensures Inserts(source, frames + [frame], appId, day) == Inserts(source, frames, appId, day) + [Insert(source, frame, appId, day)]
  {
    assert (frames + [frame])[..|frames|] == frames;
  }

  lemma ProcessedChunksStep(appId: string, chunks: seq<Frame>, types: Dict<string, string>,
                            converters: seq<(string, Converter)>, clock: Clock, d: Date, k: nat)
    requires k < |chunks|
    ensures ProcessedChunks(appId, chunks[..k + 1], types, converters, clock, d)
         == ProcessedChunks(appId, chunks[..k], types, converters, clock, d) + [Processed(appId, chunks[k], types, converters, clock(d, k))]
  {
    MapIndexedStep(chunks, ChunkProcessing(appId, types, converters, clock, d), k);
  }

  lemma AppendAssoc<T>(a: seq<T>, b: seq<T>, c: seq<T>)
    ensures a + b + c == a + (b + c)
  {
  }

  /** The number of days from `from` to `to`. */
  function DaysCount(from: Date, to: Date): nat
  {
    if to < from then 0 else to - from + 1
  }

  /** `update` from `from` to `to` succeeds exactly when no day of the range fails to load;
      otherwise it stops after its first failing day, every earlier day having loaded. */
  lemma UpdateRange(source: string, appId: string, load: Stream, from: Date, to: Date)
    ensures var (ok, ran) := RunDays(source, appId, load, from, DaysCount(from, to));
      ran <= DaysCount(from, to)
      && (ok <==> forall d :: from <= d <= to ==> !DayFails(source, appId, load, d))
      && (ok ==> ran == DaysCount(from, to))
      && (!ok ==> 0 < ran && DayFails(source, appId, load, from + ran - 1)
                  && forall d :: from <= d < from + ran - 1 ==> !DayFails(source, appId, load, d))
  {
    RunDaysFacts(source, appId, load, from, DaysCount(from, to));
  }

  /** `update`'s events for the `count` days from `from`, ascending, given each day's
      frames. */
  function RangeEvents(source: string, appId: string, from: Date, count: nat, frames: Date -> seq<Frame>): seq<Event>
    requires 1 <= from && from + count - 1 <= MaxOrdinal
  {
    if count == 0 then []
    else
      var d := from + count - 1;
      RangeEvents(source, appId, from, count - 1, frames) + DateEvents(source, appId, d, frames(d))
  }

  lemma RangeEventsStep(source: string, appId: string, from: Date, count: nat, frames: Date -> seq<Frame>)
    requires 1 <= from && from + count <= MaxOrdinal
    ensures RangeEvents(source, appId, from, count + 1, frames)
         == RangeEvents(source, appId, from, count, frames) + DateEvents(source, appId, from + count, frames(from + count))
  {
  }

  lemma RangeEventsAppended(start: seq<Event>, before: seq<Event>, source: string, appId: string, from: Date,
                            n: nat, frames: Date -> seq<Frame>)
    requires 1 <= from && from + n <= MaxOrdinal
    requires before == start + RangeEvents(source, appId, from, n, frames)
    ensures before + DateEvents(source, appId, from + n, frames(from + n))
         == start + RangeEvents(source, appId, from, n + 1, frames)
  {
    RangeEventsStep(source, appId, from, n, frames);
    AppendAssoc(start, RangeEvents(source, appId, from, n, frames), DateEvents(source, appId, from + n, frames(from + n)));
  }

  /** The days whose partitions are recreated, in order. */
  function Recreated(events: seq<Event>): seq<Date>
  {
    if events == [] then []
    else Recreated(events[..|events| - 1]) + (if events[|events| - 1].Recreate? then [events[|events| - 1].day] else [])
  }

  lemma {:induction false} RecreatedAppend(a: seq<Event>, b: seq<Event>)
    ensures Recreated(a + b) == Recreated(a) + Recreated(b)
    decreases |b|
  {
    if b == [] {
      assert a + b == a;
    } else {
      RecreatedAppend(a, b[..|b| - 1]);
      assert (a + b)[..|a + b| - 1] == a + b[..|b| - 1];
    }
  }

  lemma {:induction false} RecreatedInserts(source: string, frames: seq<Frame>, appId: string, day: Date)
    ensures Recreated(Inserts(source, frames, appId, day)) == []
  {
    if frames != [] {
      var init := Inserts(source, frames[..|frames| - 1], appId, day);
      RecreatedInserts(source, frames[..|frames| - 1], appId, day);
      assert (init + [Insert(source, frames[|frames| - 1], appId, day)])[..|init|] == init;
    }
  }

  lemma RecreatedOne(e: Event)
    ensures Recreated([e]) == if e.Recreate? then [e.day] else []
  {
    assert [e][..0] == [];
  }

  /** One day recreates exactly its own partition. */
  lemma DateRecreates(source: string, appId: string, d: Date, frames: seq<Frame>)
    requires ValidDate(d)
    ensures Recreated(DateEvents(source, appId, d, frames)) == [d]
  {
    var recreate := Recreate(source, appId, d);
    var exported := Export(source, appId, StartOfDay(d), EndOfDay(d));
    var ins := Inserts(source, frames, appId, d);
    assert DateEvents(source, appId, d, frames) == [recreate] + ([exported] + ins);
    RecreatedAppend([recreate], [exported] + ins);
    RecreatedAppend([exported], ins);
    RecreatedOne(recreate);
    RecreatedOne(exported);
    RecreatedInserts(source, frames, appId, d);
  }

  /** The `count` days from `from`, ascending. */
  function Days(from: Date, count: nat): (r: seq<Date>)
    ensures |r| == count
    ensures forall k :: 0 <= k < count ==> r[k] == from + k
  {
    seq(count, k requires 0 <= k < count => from + k)
  }

  lemma RecreatedDaysStep(before: seq<Event>, day: seq<Event>, from: Date, count: nat)
    requires count > 0
    requires Recreated(before) == Days(from, count - 1) && Recreated(day) == [from + count - 1]
    ensures Recreated(before + day) == Days(from, count)
  {
    RecreatedAppend(before, day);
    assert Days(from, count) == Days(from, count - 1) + [from + count - 1];
  }

  /** `update` recreates the partitions of its days, one each, in ascending order. */
  lemma {:induction false} RangeRecreatesDays(source: string, appId: string, from: Date, count: nat,
                                              frames: Date -> seq<Frame>)
    requires 1 <= from && from + count - 1 <= MaxOrdinal
    ensures Recreated(RangeEvents(source, appId, from, count, frames)) == Days(from, count)
  {
    if count > 0 {
      var d := from + count - 1;
      var before := RangeEvents(source, appId, from, count - 1, frames);
      var day := DateEvents(source, appId, d, frames(d));
      RangeEventsStep(source, appId, from, count - 1, frames);
      RangeRecreatesDays(source, appId, from, count - 1, frames);
      DateRecreates(source, appId, d, frames(d));
      RecreatedDaysStep(before, day, from, count);
    }
  }

  /** Every insert into a partition comes after that partition was recreated. */
  lemma {:induction false} RecreateBeforeInsert(source: string, appId: string, from: Date, count: nat,
                                                frames: Date -> seq<Frame>, j: nat)
    requires 1 <= from && from + count - 1 <= MaxOrdinal
    requires j < |RangeEvents(source, appId, from, count, frames)|
    requires RangeEvents(source, appId, from, count, frames)[j].Insert?
    ensures var es := RangeEvents(source, appId, from, count, frames);
            exists i :: 0 <= i < j && es[i] == Recreate(source, es[j].appId, es[j].day)
  {
    var es := RangeEvents(source, appId, from, count, frames);
    var d := from + count - 1;
    var before := RangeEvents(source, appId, from, count - 1, frames);
    var day := DateEvents(source, appId, d, frames(d));
    RangeEventsStep(source, appId, from, count - 1, frames);
    assert es == before + day;
    if j < |before| {
      assert es[j] == before[j];
      RecreateBeforeInsert(source, appId, from, count - 1, frames, j);
      var i :| 0 <= i < j && before[i] == Recreate(source, before[j].appId, before[j].day);
      assert es[i] == before[i];
    } else {
      assert es[|before|] == day[0] == Recreate(source, appId, d);
      assert es[j] == day[j - |before|];
      DateEventsAt(source, appId, d, frames(d), j - |before|);
    }
  }

  /** The day's export window runs from its first to its last microsecond. */
  lemma ExportWindow(d: Date)
    ensures DateOf(StartOfDay(d)) == d && DateOf(EndOfDay(d)) == d
    ensures EndOfDay(d) - StartOfDay(d) == DayMicros - 1
  {
    DateOfStart(d);
  }

  /** The updater of `updater/updater.py`: its controllers, the sources' processing
      definitions, the loader, and the events so far. */
  class Updater {
    /** `_db_controllers`, filled by `_cached_db_controller` in the same way as
        `DbControllersCollection.db_controller`. */
    const cache: DbControllersCollection
    /** `sources_collection.processing_definition(source)`: column types and converters. */
    const processing: string -> (Dict<string, string>, seq<(string, Converter)>)
    /** `_load`: the loader's chunks. */
    const load: Stream
    var events: seq<Event>

    /** `__init__`: a new, empty `_db_controllers` over the given server and table definitions. */
    constructor(db: ClickhouseDatabase, definitionOf: string -> DbTableDefinition,
                processing: string -> (Dict<string, string>, seq<(string, Converter)>), load: Stream)
      ensures fresh(cache) && cache.db == db && cache.definitionOf == definitionOf
      ensures cache.controllers == map[] && cache.Valid()
      ensures this.processing == processing && this.load == load && events == []
    {
      cache := new DbControllersCollection(db, definitionOf);
      this.processing := processing;
      this.load := load;
      events := [];
    }

    /** `_cached_db_controller`: the kept controller, or a new one, prepared, and kept when
        `prepare` succeeds. */
    method CachedController(source: string) returns (c: DbController, ok: bool)
      requires cache.Valid() && cache.db.Valid()
      modifies cache, cache.db
      ensures cache.Valid() && cache.db.Valid()
      ensures source in old(cache.controllers) ==>
                ok && c == old(cache.controllers[source]) && cache.controllers == old(cache.controllers) &&
                unchanged(cache.db)
      ensures source !in old(cache.controllers) ==>
                fresh(c) && c.db == cache.db && c.definition == cache.definitionOf(source) &&
                cache.prepared == old(cache.prepared) + [(source, ok)] &&
                cache.controllers == if ok then old(cache.controllers)[source := c] else old(cache.controllers)
      ensures source !in old(cache.controllers) ==> var def := cache.definitionOf(source);
        && (old(PlainServer(cache.db, def)) ==> ok)
        && (ok ==> cache.db.dbName in cache.db.databases && Get(cache.db.tables, def.tableName).Some?)
        && (ok && old(PlainServer(cache.db, def)) && old(Acceptable(cache.db.tables, def)) ==>
              cache.db.tables == old(cache.db.tables) && cache.db.databases == old(cache.db.databases))
        && (ok && !old(Acceptable(cache.db.tables, def)) ==>
              cache.db.tables == RemoveKey(old(cache.db.tables), def.tableName) + [(def.tableName, NewTable(def))])
    {
      c, ok := cache.ControllerFor(source);
    }

    /** `_update_date`: the day's events up to the loader's failure, and whether the day
        completed. A failing load still leaves the chunks it yielded inserted. */
    method UpdateDate(source: string, appId: string, d: Date, types: Dict<string, string>,
                      converters: seq<(string, Converter)>, clock: Clock) returns (ok: bool)
      requires ValidDate(d)
      modifies this
      ensures events == old(events) + DateEvents(source, appId, d, DayFrames(source, appId, load, types, converters, clock)(d))
      ensures ok <==> !DayFails(source, appId, load, d)
    {
      var since, until := StartOfDay(d), EndOfDay(d);
      var answer := load(source, appId, since, until);
      var chunks := answer.frames;
      var inserted: seq<Event> := [];
      ghost var uploads: seq<Frame> := [];
      for k := 0 to |chunks|
        invariant uploads == ProcessedChunks(appId, chunks[..k], types, converters, clock, d)
        invariant inserted == Inserts(source, uploads, appId, d)
        invariant events == old(events)
      {
        ProcessedChunksStep(appId, chunks, types, converters, clock, d, k);
        var upload := ProcessData(appId, chunks[k], types, converters, clock(d, k));
        InsertsStep(source, uploads, upload, appId, d);
        inserted := inserted + [Insert(source, upload, appId, d)];
        uploads := uploads + [upload];
      }
      assert chunks[..|chunks|] == chunks;
      assert inserted == Inserts(source, ProcessedChunks(appId, chunks, types, converters, clock, d), appId, d);
      assert DayFrames(source, appId, load, types, converters, clock)(d) == ProcessedChunks(appId, chunks, types, converters, clock, d);
      events := events + ([Recreate(source, appId, d), Export(source, appId, since, until)] + inserted);
      ok := answer.failure.None?;
    }

    /** One pass of the loop of `update`: the next day of the range, after `n` days that
        all loaded. */
    method UpdateNextDay(source: string, appId: string, from: Date, n: nat, count: nat, types: Dict<string, string>,
                         converters: seq<(string, Converter)>, clock: Clock, ghost start: seq<Event>)
      returns (dayOk: bool)
      requires 1 <= from && n < count && from + count - 1 <= MaxOrdinal
      requires events == start + RangeEvents(source, appId, from, n, DayFrames(source, appId, load, types, converters, clock))
      requires RunDays(source, appId, load, from, n) == (true, n)
      modifies this
      ensures events == start + RangeEvents(source, appId, from, n + 1, DayFrames(source, appId, load, types, converters, clock))
      ensures RunDays(source, appId, load, from, n + 1) == (dayOk, n + 1)
    {
      ghost var frames := DayFrames(source, appId, load, types, converters, clock);
      ghost var before := events;
      RunDaysStep(source, appId, load, from, n);
      dayOk := UpdateDate(source, appId, from + n, types, converters, clock);
      RangeEventsAppended(start, before, source, appId, from, n, frames);
    }

    /** `update`'s loop: the days of the range, ascending, up to and including the first
        whose load raises; `ran` days were reached. */
    method UpdateDays(source: string, appId: string, from: Date, count: nat, types: Dict<string, string>,
                      converters: seq<(string, Converter)>, clock: Clock) returns (ok: bool, ran: nat)
      requires 1 <= from && from + count - 1 <= MaxOrdinal
      modifies this
      ensures (ok, ran) == RunDays(source, appId, load, from, count)
      ensures events == old(events) + RangeEvents(source, appId, from, ran, DayFrames(source, appId, load, types, converters, clock))
    {
      for n := 0 to count
        invariant events == old(events) + RangeEvents(source, appId, from, n, DayFrames(source, appId, load, types, converters, clock))
        invariant RunDays(source, appId, load, from, n) == (true, n)
      {
        var dayOk := UpdateNextDay(source, appId, from, n, count, types, converters, clock, old(events));
        if !dayOk {
          RunDaysStops(source, appId, load, from, n + 1, count);
          return false, n + 1;
        }
      }
      return true, count;
    }

    /** `update`: the source's controller, then the days from `from` to `to` until a load
        raises. A failed `prepare` raises before any day is loaded. */
    method Update(source: string, appId: string, from: Date, to: Date, clock: Clock)
      returns (prepared: bool, ok: bool, ran: nat)
      requires ValidDate(from) && ValidDate(to)
      requires cache.Valid() && cache.db.Valid()
      modifies this, cache, cache.db
      ensures cache.Valid() && cache.db.Valid()
      ensures source in old(cache.controllers) ==> prepared
      ensures prepared ==> source in cache.controllers
      ensures !prepared ==> !ok && ran == 0 && events == old(events)
      ensures prepared ==> (ok, ran) == RunDays(source, appId, load, from, DaysCount(from, to))
      ensures prepared ==> events == old(events) + RangeEvents(source, appId, from, ran,
                             DayFrames(source, appId, load, processing(source).0, processing(source).1, clock))
    {
      var c;
      c, prepared := CachedController(source);
      if !prepared {
        return false, false, 0;
      }
      var types, converters := processing(source).0, processing(source).1;
      ok, ran := UpdateDays(source, appId, from, DaysCount(from, to), types, converters, clock);
    }
  }
}
