/** `updater/db_controller.py`: one source's table in ClickHouse. `prepare` makes sure the
    database and a table with the wanted columns exist, `insert_data` sends a frame's export
    columns, escaped, through the temporary table `{table}_tmp` so that only rows with new
    unique keys reach the table, and `cleanup` drops the temporary table. Also
    `updater/db_controllers_collection.py`, which makes and prepares one controller per
    source and keeps it. */
module DbControllers {
  import opened Common
  import opened Dicts
  import opened Frames
  import opened Clickhouse

  /** A source's table as the fields catalogue describes it: its name, the engine's date,
      sampling and primary key columns, the columns with their ClickHouse types, the frame
      columns sent on insert, the types by frame column, and the columns that make a row
      unique. */
  datatype DbTableDefinition = DbTableDefinition(
    tableName: string,
    dateField: string,
    samplingField: Option<string>,
    primaryKeys: seq<string>,
    fieldTypes: Dict<string, string>,
    exportFields: seq<string>,
    columnTypes: Dict<string, string>,
    uniqueKeys: seq<string>)

  /** `temp_table_name`: `{table}_tmp`, never the table itself. */
  function TempTableName(table: string): (r: string)
    ensures r != table
    ensures |r| == |table| + 4 && r[..|table|] == table
  {
    var r := table + "_tmp";
    assert |r| != |table|;
    r
  }

  // ----- the scheme text -----

  /** `repr` of a string without quotes or backslashes in it. `repr` also escapes
      non-printable characters and switches to double quotes for a text holding a single
      quote; neither is modelled, so the scheme facts below are stated for `PlainText`
      names only. */
  function Quoted(s: string): string
  {
    "'" + s + "'"
  }

  function SamplingText(s: Option<string>): string
  {
    match s
    case None => "None"
    case Some(v) => Quoted(v)
  }

  function PairText(p: (string, string)): string
  {
    "(" + Quoted(p.0) + ", " + Quoted(p.1) + ")"
  }

  function PairsText(f: seq<(string, string)>): string
    requires |f| >= 1
  {
    if |f| == 1 then PairText(f[0]) else PairText(f[0]) + ", " + PairsText(f[1..])
  }

  /** `repr(tuple(field_types.items()))`: a one-element tuple keeps a trailing comma. */
  function FieldTypesText(f: seq<(string, string)>): string
  {
    if |f| == 0 then "()"
    else if |f| == 1 then "(" + PairsText(f) + ",)"
    else "(" + PairsText(f) + ")"
  }

  /** `scheme`: `str((date_field, sampling_field, tuple(field_types.items())))`. It is
      built from these three parts of the definition and nothing else. */
  function Scheme(def: DbTableDefinition): string
  {
    "(" + Quoted(def.dateField) + ", " + SamplingText(def.samplingField) + ", "
      + FieldTypesText(def.fieldTypes) + ")"
  }

  /** Names the scheme text shows as they are: no quote and no backslash in them. */
  predicate PlainText(s: string)
  {
    '\'' !in s && '\\' !in s
  }

  predicate PlainDefinition(def: DbTableDefinition)
  {
    && PlainText(def.dateField)
    && (def.samplingField.Some? ==> PlainText(def.samplingField.value))
    && forall k :: 0 <= k < |def.fieldTypes| ==> PlainText(def.fieldTypes[k].0) && PlainText(def.fieldTypes[k].1)
  }

  // Reading a scheme text back: the reference the scheme text is checked against.

  /** The text before the first quote. */
  function UpToQuote(s: string): (r: string)
    ensures |r| <= |s| && r == s[..|r|] && '\'' !in r
    ensures |r| < |s| ==> s[|r|] == '\''
  {
    if |s| == 0 || s[0] == '\'' then "" else [s[0]] + UpToQuote(s[1..])
  }

  lemma {:induction false} UpToQuoteOf(a: string, x: string)
    requires '\'' !in a
    ensures UpToQuote(a + "'" + x) == a
    decreases |a|
  {
    if |a| > 0 {
      assert (a + "'" + x)[1..] == a[1..] + "'" + x;
      UpToQuoteOf(a[1..], x);
    }
  }

  /** A quoted string at the start of the text, and the text after it. */
  function ReadQuoted(s: string): Option<(string, string)>
  {
    if |s| > 0 && s[0] == '\'' then
      var a := UpToQuote(s[1..]);
      if |a| < |s| - 1 then Some((a, s[|a| + 2..])) else None
    else None
  }

  lemma ReadQuotedOf(a: string, x: string)
    requires '\'' !in a
    ensures ReadQuoted(Quoted(a) + x) == Some((a, x))
  {
    var s := Quoted(a) + x;
    assert s[1..] == a + "'" + x;
    UpToQuoteOf(a, x);
    assert s[|a| + 2..] == x;
  }

  /** The text after a fixed prefix. */
  function After(s: string, prefix: string): Option<string>
  {
    if |prefix| <= |s| && s[..|prefix|] == prefix then Some(s[|prefix|..]) else None
  }

  lemma AfterOf(prefix: string, x: string)
    ensures After(prefix + x, prefix) == Some(x)
  {
    assert (prefix + x)[..|prefix|] == prefix;
    assert (prefix + x)[|prefix|..] == x;
  }

  function ReadSampling(s: string): Option<(Option<string>, string)>
  {
    match After(s, "None")
    case Some(rest) => Some((None, rest))
    case None =>
      match ReadQuoted(s)
      case Some((v, rest)) => Some((Some(v), rest))
      case None => None
  }

  lemma ReadSamplingOf(v: Option<string>, x: string)
    requires v.Some? ==> '\'' !in v.value
    ensures ReadSampling(SamplingText(v) + x) == Some((v, x))
  {
    if v.None? {
      AfterOf("None", x);
    } else {
      var s := SamplingText(v) + x;
      assert s[0] == '\'';
      assert After(s, "None").None? by {
        if 4 <= |s| {
          assert s[..4][0] == s[0];
        }
      }
      ReadQuotedOf(v.value, x);
    }
  }

  function ReadPair(s: string): Option<((string, string), string)>
  {
    match After(s, "(")
    case None => None
    case Some(s1) =>
      match ReadQuoted(s1)
      case None => None
      case Some((a, s2)) =>
        match After(s2, ", ")
        case None => None
        case Some(s3) =>
          match ReadQuoted(s3)
          case None => None
          case Some((b, s4)) =>
            match After(s4, ")")
            case None => None
            case Some(s5) => Some(((a, b), s5))
  }

  lemma ReadPairOf(p: (string, string), x: string)
    requires '\'' !in p.0 && '\'' !in p.1
    ensures ReadPair(PairText(p) + x) == Some((p, x))
  {
    var t4 := ")" + x;
    var t3 := Quoted(p.1) + t4;
    var t2 := ", " + t3;
    var t1 := Quoted(p.0) + t2;
    assert PairText(p) + x == "(" + t1;
    AfterOf("(", t1);
    ReadQuotedOf(p.0, t2);
    AfterOf(", ", t3);
    ReadQuotedOf(p.1, t4);
    AfterOf(")", x);
  }

  /** Whether more pairs follow. */
  predicate MorePairs(s: string)
  {
    |s| >= 3 && s[..3] == ", ("
  }

  /** Pairs separated by `, `, up to the first place where no pair follows. */
  function ReadPairs(s: string): Option<(seq<(string, string)>, string)>
    decreases |s|
  {
    match ReadPair(s)
    case None => None
    case Some((p, rest)) =>
      if MorePairs(rest) && |rest| < |s| then
        match ReadPairs(rest[2..])
        case None => None
        case Some((ps, tail)) => Some(([p] + ps, tail))
      else Some(([p], rest))
  }

  lemma {:induction false} ReadPairsOf(f: seq<(string, string)>, x: string)
    requires |f| >= 1 && !MorePairs(x)
    requires forall k :: 0 <= k < |f| ==> '\'' !in f[k].0 && '\'' !in f[k].1
    ensures ReadPairs(PairsText(f) + x) == Some((f, x))
    decreases |f|
  {
    if |f| == 1 {
      ReadPairOf(f[0], x);
      assert [f[0]] == f;
    } else {
      ReadPairsOf(f[1..], x);
      ReadPairsMore(f, x);
    }
  }

  lemma ReadPairsMore(f: seq<(string, string)>, x: string)
    requires |f| >= 2 && '\'' !in f[0].0 && '\'' !in f[0].1
    requires ReadPairs(PairsText(f[1..]) + x) == Some((f[1..], x))
    ensures ReadPairs(PairsText(f) + x) == Some((f, x))
  {
    PairsTextCons(f, x);
    ReadPairsAhead(f[0], f[1..], x);
    assert [f[0]] + f[1..] == f;
  }

  /** A pair, `, ` and more pairs read as the pair followed by the pairs. */
  lemma ReadPairsAhead(p: (string, string), ps: seq<(string, string)>, x: string)
    requires |ps| >= 1 && '\'' !in p.0 && '\'' !in p.1
    requires ReadPairs(PairsText(ps) + x) == Some((ps, x))
    ensures ReadPairs(PairText(p) + (", " + (PairsText(ps) + x))) == Some(([p] + ps, x))
  {
    var rest := ", " + (PairsText(ps) + x);
    var s := PairText(p) + rest;
    ReadPairOf(p, rest);
    MorePairsAhead(ps, x);
    ReadPairsCons(s, p, rest, ps, x);
  }

  lemma PairsTextCons(f: seq<(string, string)>, x: string)
    requires |f| >= 2
    ensures PairsText(f) + x == PairText(f[0]) + (", " + (PairsText(f[1..]) + x))
  {
    var head, tail := PairText(f[0]), PairsText(f[1..]);
    assert PairsText(f) == head + ", " + tail;
    Regroup(head, ", ", tail, x);
  }

  lemma Regroup<T>(a: seq<T>, b: seq<T>, c: seq<T>, d: seq<T>)
    ensures a + b + c + d == a + (b + (c + d))
  {
  }

  lemma MorePairsAhead(f: seq<(string, string)>, x: string)
    requires |f| >= 1
    ensures MorePairs(", " + (PairsText(f) + x))
    ensures (", " + (PairsText(f) + x))[2..] == PairsText(f) + x
  {
    PairsTextStart(f);
    var rest := ", " + (PairsText(f) + x);
    assert rest[..3] == ", (";
  }

  lemma ReadPairsCons(s: string, p: (string, string), rest: string, ps: seq<(string, string)>, tail: string)
    requires ReadPair(s) == Some((p, rest)) && MorePairs(rest) && |rest| < |s|
    requires ReadPairs(rest[2..]) == Some((ps, tail))
    ensures ReadPairs(s) == Some(([p] + ps, tail))
  {
  }

  lemma PairsTextStart(f: seq<(string, string)>)
    requires |f| >= 1
    ensures |PairsText(f)| > 1 && PairsText(f)[0] == '('
  {
  }

  function ReadFieldTypes(s: string): Option<(seq<(string, string)>, string)>
  {
    match After(s, "()")
    case Some(rest) => Some(([], rest))
    case None =>
      match After(s, "(")
      case None => None
      case Some(s1) => ReadTuple(s1)
  }

  /** The pairs of a tuple after its opening bracket, and the text after its closing one. */
  function ReadTuple(s: string): Option<(seq<(string, string)>, string)>
  {
    match ReadPairs(s)
    case None => None
    case Some((ps, s2)) =>
      match After(s2, if |ps| == 1 then ",)" else ")")
      case None => None
      case Some(s3) => Some((ps, s3))
  }

  lemma ReadTupleOf(f: seq<(string, string)>, x: string)
    requires |f| >= 1
    requires forall k :: 0 <= k < |f| ==> '\'' !in f[k].0 && '\'' !in f[k].1
    ensures ReadTuple(PairsText(f) + (if |f| == 1 then ",)" else ")") + x) == Some((f, x))
  {
    var close := if |f| == 1 then ",)" else ")";
    var tail := close + x;
    assert PairsText(f) + close + x == PairsText(f) + tail;
    NoMoreAfterClose(close, x);
    ReadPairsOf(f, tail);
    AfterOf(close, x);
    ReadTupleStep(PairsText(f) + tail, f, tail, close, x);
  }

  lemma NoMoreAfterClose(close: string, x: string)
    requires close == ",)" || close == ")"
    ensures !MorePairs(close + x)
  {
    var tail := close + x;
    if |tail| >= 3 {
      assert tail[..3][0] == tail[0] == close[0];
      assert tail[..3][1] == tail[1];
    }
  }

  lemma ReadTupleStep(s: string, f: seq<(string, string)>, tail: string, close: string, x: string)
    requires ReadPairs(s) == Some((f, tail)) && close == (if |f| == 1 then ",)" else ")")
    requires After(tail, close) == Some(x)
    ensures ReadTuple(s) == Some((f, x))
  {
    var (ps, s2) := ReadPairs(s).value;
    assert ps == f && s2 == tail;
  }

  lemma ReadFieldTypesOf(f: seq<(string, string)>, x: string)
    requires forall k :: 0 <= k < |f| ==> '\'' !in f[k].0 && '\'' !in f[k].1
    ensures ReadFieldTypes(FieldTypesText(f) + x) == Some((f, x))
  {
    if |f| == 0 {
      AfterOf("()", x);
    } else {
      ReadFieldTypesNonEmpty(f, x);
    }
  }

  lemma ReadFieldTypesNonEmpty(f: seq<(string, string)>, x: string)
    requires |f| > 0
    requires forall k :: 0 <= k < |f| ==> '\'' !in f[k].0 && '\'' !in f[k].1
    ensures ReadFieldTypes(FieldTypesText(f) + x) == Some((f, x))
  {
    var close := if |f| == 1 then ",)" else ")";
    var rest := close + x;
    var inner := PairsText(f) + rest;
    FieldTypesTextOpen(f, x);
    PairsTextStart(f);
    NoEmptyTuple(PairsText(f), rest);
    AfterOf("(", inner);
    assert PairsText(f) + close + x == inner;
    ReadTupleOf(f, x);
    ReadFieldTypesStep("(" + inner, inner);
  }

  lemma FieldTypesTextOpen(f: seq<(string, string)>, x: string)
    requires |f| > 0
    ensures FieldTypesText(f) + x == "(" + (PairsText(f) + ((if |f| == 1 then ",)" else ")") + x))
  {
    var close := if |f| == 1 then ",)" else ")";
    assert FieldTypesText(f) == "(" + PairsText(f) + close;
    Regroup("(", PairsText(f), close, x);
  }

  /** A text whose second character is an opening bracket is no empty tuple. */
  lemma NoEmptyTuple(a: string, rest: string)
    requires |a| > 0 && a[0] == '('
    ensures After("(" + (a + rest), "()").None?
  {
    var s := "(" + (a + rest);
    assert s[1] == a[0];
    if 2 <= |s| {
      assert s[..2][1] == s[1];
    }
  }

  lemma ReadFieldTypesStep(s: string, inner: string)
    requires After(s, "()").None? && After(s, "(") == Some(inner)
    ensures ReadFieldTypes(s) == ReadTuple(inner)
  {
  }

  /** The three parts a scheme text is made of. */
  function ReadScheme(s: string): Option<(string, Option<string>, seq<(string, string)>)>
  {
    match After(s, "(")
    case None => None
    case Some(s1) =>
      match ReadQuoted(s1)
      case None => None
      case Some((d, s2)) =>
        match After(s2, ", ")
        case None => None
        case Some(s3) =>
          match ReadSampling(s3)
          case None => None
          case Some((v, s4)) =>
            match After(s4, ", ")
            case None => None
            case Some(s5) =>
              match ReadFieldTypes(s5)
              case None => None
              case Some((f, s6)) => if s6 == ")" then Some((d, v, f)) else None
  }

  /** The scheme text reads back as the date field, the sampling field and the column
      types it was made from. */
  lemma SchemeReadsBack(def: DbTableDefinition)
    requires PlainDefinition(def)
    ensures ReadScheme(Scheme(def)) == Some((def.dateField, def.samplingField, def.fieldTypes))
  {
    var t5 := FieldTypesText(def.fieldTypes) + ")";
    var t4 := ", " + t5;
    var t3 := SamplingText(def.samplingField) + t4;
    var t2 := ", " + t3;
    var t1 := Quoted(def.dateField) + t2;
    assert Scheme(def) == "(" + t1 by {
      Nest7("(", Quoted(def.dateField), ", ", SamplingText(def.samplingField), ", ",
            FieldTypesText(def.fieldTypes), ")");
    }
    AfterOf("(", t1);
    ReadQuotedOf(def.dateField, t2);
    AfterOf(", ", t3);
    ReadSamplingOf(def.samplingField, t4);
    AfterOf(", ", t5);
    ReadFieldTypesOf(def.fieldTypes, ")");
    ReadSchemeFrom("(" + t1, t1, def.dateField, t2, t3, def.samplingField, t4, t5, def.fieldTypes);
  }

  lemma Nest7<T>(a: seq<T>, b: seq<T>, c: seq<T>, d: seq<T>, e: seq<T>, f: seq<T>, g: seq<T>)
    ensures a + b + c + d + e + f + g == a + (b + (c + (d + (e + (f + g)))))
  {
  }

  /** The scheme reader, step by step. */
  lemma ReadSchemeFrom(s: string, s1: string, d: string, s2: string, s3: string, v: Option<string>,
                       s4: string, s5: string, f: seq<(string, string)>)
    requires After(s, "(") == Some(s1) && ReadQuoted(s1) == Some((d, s2)) && After(s2, ", ") == Some(s3)
    requires ReadSampling(s3) == Some((v, s4)) && After(s4, ", ") == Some(s5)
    requires ReadFieldTypes(s5) == Some((f, ")"))
    ensures ReadScheme(s) == Some((d, v, f))
  {
  }

  /** Two definitions have the same scheme exactly when they agree on the date field, the
      sampling field and the column types, so a change to any of them changes the scheme. */
  lemma SchemeIff(a: DbTableDefinition, b: DbTableDefinition)
    requires PlainDefinition(a) && PlainDefinition(b)
    ensures Scheme(a) == Scheme(b) <==>
      a.dateField == b.dateField && a.samplingField == b.samplingField && a.fieldTypes == b.fieldTypes
  {
    SchemeReadsBack(a);
    SchemeReadsBack(b);
  }

  // ----- escaping -----

  /** The characters `_escape_characters` turns into a backslash escape. */
  predicate RawControl(c: char)
  {
    c == '\U{8}' || c == '\r' || c == '\U{c}' || c == '\n' || c == '\t' || c == '\0'
  }

  /** One character as `_escape_characters` writes it: the control characters, the quote
      and the backslash get a backslash before a letter or themselves. */
  function EscapeChar(c: char): (r: string)
    ensures |r| >= 1
  {
    match c
    case '\U{8}' => "\\b"
    case '\r' => "\\r"
    case '\U{c}' => "\\f"
    case '\n' => "\\n"
    case '\t' => "\\t"
    case '\0' => "\\0"
    case '\'' => "\\'"
    case '\\' => "\\\\"
    case _ => [c]
  }

  /** The text with every character escaped in one pass: the escape `_escape_characters`
      is meant to perform, which the server reads back as the text (`EscapeReadsBack`).
      `_escape_data` chains the rules instead (`EscapeAsWritten`); the upload below uses
      this intended escape. */
  function Escape(s: string): (r: string)
    ensures forall i :: 0 <= i < |r| ==> !RawControl(r[i])
  {
    if |s| == 0 then "" else EscapeChar(s[0]) + Escape(s[1..])
  }

  /** The server's reading of an escaped text is the text. */
  lemma {:induction false} EscapeReadsBack(s: string)
    ensures Unescape(Escape(s)) == s
    decreases |s|
  {
    if |s| > 0 {
      EscapeReadsBack(s[1..]);
      EscapeCharReadsBack(s[0], Escape(s[1..]));
      assert [s[0]] + s[1..] == s;
    }
  }

  /** One escaped character reads back as itself, whatever follows it. */
  lemma EscapeCharReadsBack(c: char, rest: string)
    ensures Unescape(EscapeChar(c) + rest) == [c] + Unescape(rest)
  {
    var e := EscapeChar(c);
    if |e| == 2 {
      assert e[0] == '\\' && Unescaped(e[1]) == c;
      assert (e + rest)[2..] == rest;
    } else {
      assert e == [c] && c != '\\';
      assert (e + rest)[1..] == rest;
    }
  }

  // ----- the escape as `_escape_data` runs it -----

  /** One text as `df.replace({col: _escape_characters}, regex=True)` leaves it: the pairs
      of `_escape_characters` one after another in dict order, each `re.sub` over the text
      the one before it left (a one-character pattern; the template `\\\\` is one backslash).
      The backslash rule comes last and doubles the backslash every earlier rule wrote. */
  function EscapeAsWritten(s: string): string
  {
    var s1 := ReplaceChar(s, '\U{8}', "\\b");
    var s2 := ReplaceChar(s1, '\r', "\\r");
    var s3 := ReplaceChar(s2, '\U{c}', "\\f");
    var s4 := ReplaceChar(s3, '\n', "\\n");
    var s5 := ReplaceChar(s4, '\t', "\\t");
    var s6 := ReplaceChar(s5, '\0', "\\0");
    var s7 := ReplaceChar(s6, '\'', "\\'");
    ReplaceChar(s7, '\\', "\\\\")
  }

  /** The characters of the first seven rules. */
  predicate Escapable(c: char)
  {
    RawControl(c) || c == '\''
  }

  /** What the chained rules make of one character: a doubled backslash and the letter for
      the first seven rules, a doubled backslash for a backslash. */
  function AsWrittenChar(c: char): (r: string)
    ensures Escapable(c) ==> |r| == 3 && r[0] == '\\' && r[1] == '\\' && r[2] != '\\'
    ensures !Escapable(c) ==> r == EscapeChar(c)
  {
    if Escapable(c) then "\\" + EscapeChar(c) else EscapeChar(c)
  }

  /** What the server stores for one character of the chained escape: a backslash and the
      letter for the first seven rules, the character itself otherwise. */
  function StoredChar(c: char): string
  {
    if Escapable(c) then EscapeChar(c) else [c]
  }

  function StoredText(s: string): string
  {
    if |s| == 0 then "" else StoredChar(s[0]) + StoredText(s[1..])
  }

  lemma {:induction false} ReplaceCharAppend(a: string, b: string, c: char, t: string)
    ensures ReplaceChar(a + b, c, t) == ReplaceChar(a, c, t) + ReplaceChar(b, c, t)
    decreases |a|
  {
    if |a| == 0 {
      assert a + b == b;
    } else {
      var head := if a[0] == c then t else [a[0]];
      assert (a + b)[0] == a[0] && (a + b)[1..] == a[1..] + b;
      ReplaceCharAppend(a[1..], b, c, t);
      calc {
        ReplaceChar(a + b, c, t);
        head + ReplaceChar(a[1..] + b, c, t);
        head + (ReplaceChar(a[1..], c, t) + ReplaceChar(b, c, t));
        (head + ReplaceChar(a[1..], c, t)) + ReplaceChar(b, c, t);
        ReplaceChar(a, c, t) + ReplaceChar(b, c, t);
      }
    }
  }

  /** Each rule works character by character, so the chain does. */
  lemma EscapeAsWrittenAppend(a: string, b: string)
    ensures EscapeAsWritten(a + b) == EscapeAsWritten(a) + EscapeAsWritten(b)
  {
    ReplaceCharAppend(a, b, '\U{8}', "\\b");
    var a1, b1 := ReplaceChar(a, '\U{8}', "\\b"), ReplaceChar(b, '\U{8}', "\\b");
    ReplaceCharAppend(a1, b1, '\r', "\\r");
    var a2, b2 := ReplaceChar(a1, '\r', "\\r"), ReplaceChar(b1, '\r', "\\r");
    ReplaceCharAppend(a2, b2, '\U{c}', "\\f");
    var a3, b3 := ReplaceChar(a2, '\U{c}', "\\f"), ReplaceChar(b2, '\U{c}', "\\f");
    ReplaceCharAppend(a3, b3, '\n', "\\n");
    var a4, b4 := ReplaceChar(a3, '\n', "\\n"), ReplaceChar(b3, '\n', "\\n");
    ReplaceCharAppend(a4, b4, '\t', "\\t");
    var a5, b5 := ReplaceChar(a4, '\t', "\\t"), ReplaceChar(b4, '\t', "\\t");
    ReplaceCharAppend(a5, b5, '\0', "\\0");
    var a6, b6 := ReplaceChar(a5, '\0', "\\0"), ReplaceChar(b5, '\0', "\\0");
    ReplaceCharAppend(a6, b6, '\'', "\\'");
    var a7, b7 := ReplaceChar(a6, '\'', "\\'"), ReplaceChar(b6, '\'', "\\'");
    ReplaceCharAppend(a7, b7, '\\', "\\\\");
  }

  lemma {:induction false} ReplaceCharAbsent(s: string, c: char, t: string)
    requires c !in s
    ensures ReplaceChar(s, c, t) == s
    decreases |s|
  {
    if |s| > 0 {
      ReplaceCharAbsent(s[1..], c, t);
      assert [s[0]] + s[1..] == s;
    }
  }

  /** A character one rule replaces is replaced by its text alone. */
  lemma ReplaceCharOne(c: char, t: string)
    ensures ReplaceChar([c], c, t) == t
  {
    assert [c][1..] == [];
  }

  /** The backslash rule doubles the backslash of an escape. */
  lemma Doubled(e: string)
    requires |e| == 2 && e[0] == '\\' && e[1] != '\\'
    ensures ReplaceChar(e, '\\', "\\\\") == "\\" + e
  {
    assert e == [e[0]] + [e[1]];
    ReplaceCharAppend([e[0]], [e[1]], '\\', "\\\\");
    ReplaceCharOne('\\', "\\\\");
    ReplaceCharAbsent([e[1]], '\\', "\\\\");
  }

  /** The chained rules take each character to `AsWrittenChar`. */
  lemma EscapeAsWrittenChar(c: char)
    ensures EscapeAsWritten([c]) == AsWrittenChar(c)
  {
    if c == '\U{8}' || c == '\r' {
      ThroughRules12(c);
    } else if c == '\U{c}' || c == '\n' {
      ThroughRules34(c);
    } else if c == '\t' || c == '\0' {
      ThroughRules56(c);
    } else {
      ThroughLastTwo(c);
    }
  }

  /** The backspace and carriage return each meet their rule and then the backslash rule. */
  lemma ThroughRules12(c: char)
    requires c == '\U{8}' || c == '\r'
    ensures EscapeAsWritten([c]) == AsWrittenChar(c)
  {
    if c == '\U{8}' {
      ThroughRule1(c);
    } else {
      ThroughRule2(c);
    }
  }

  lemma ThroughRule1(c: char)
    requires c == '\U{8}'
    ensures EscapeAsWritten([c]) == AsWrittenChar(c)
  {
    var e := "\\b";
    var s1 := ReplaceChar([c], '\U{8}', e);
    assert s1 == e by { ReplaceCharOne(c, e); }
    var s2 := ReplaceChar(s1, '\r', "\\r");
    assert s2 == e by { ReplaceCharAbsent(e, '\r', "\\r"); }
    var s3 := ReplaceChar(s2, '\U{c}', "\\f");
    assert s3 == e by { ReplaceCharAbsent(e, '\U{c}', "\\f"); }
    var s4 := ReplaceChar(s3, '\n', "\\n");
    assert s4 == e by { ReplaceCharAbsent(e, '\n', "\\n"); }
    var s5 := ReplaceChar(s4, '\t', "\\t");
    assert s5 == e by { ReplaceCharAbsent(e, '\t', "\\t"); }
    var s6 := ReplaceChar(s5, '\0', "\\0");
    assert s6 == e by { ReplaceCharAbsent(e, '\0', "\\0"); }
    var s7 := ReplaceChar(s6, '\'', "\\'");
    assert s7 == e by { ReplaceCharAbsent(e, '\'', "\\'"); }
    assert ReplaceChar(s7, '\\', "\\\\") == "\\" + e by { Doubled(e); }
    assert AsWrittenChar(c) == "\\" + e;
  }

  lemma ThroughRule2(c: char)
    requires c == '\r'
    ensures EscapeAsWritten([c]) == AsWrittenChar(c)
  {
    ReplaceCharAbsent([c], '\U{8}', "\\b");
    ReplaceCharOne(c, "\\r");
    ReplaceCharAbsent("\\r", '\U{c}', "\\f");
    ReplaceCharAbsent("\\r", '\n', "\\n");
    ReplaceCharAbsent("\\r", '\t', "\\t");
    ReplaceCharAbsent("\\r", '\0', "\\0");
    ReplaceCharAbsent("\\r", '\'', "\\'");
    Doubled("\\r");
  }

  /** The form feed and newline each meet their rule and then the backslash rule. */
  lemma ThroughRules34(c: char)
    requires c == '\U{c}' || c == '\n'
    ensures EscapeAsWritten([c]) == AsWrittenChar(c)
  {
    if c == '\U{c}' {
      ReplaceCharAbsent([c], '\U{8}', "\\b");
      ReplaceCharAbsent([c], '\r', "\\r");
      ReplaceCharOne(c, "\\f");
      ReplaceCharAbsent("\\f", '\n', "\\n");
      ReplaceCharAbsent("\\f", '\t', "\\t");
      ReplaceCharAbsent("\\f", '\0', "\\0");
      ReplaceCharAbsent("\\f", '\'', "\\'");
      Doubled("\\f");
    } else {
      ReplaceCharAbsent([c], '\U{8}', "\\b");
      ReplaceCharAbsent([c], '\r', "\\r");
      ReplaceCharAbsent([c], '\U{c}', "\\f");
      ReplaceCharOne(c, "\\n");
      ReplaceCharAbsent("\\n", '\t', "\\t");
      ReplaceCharAbsent("\\n", '\0', "\\0");
      ReplaceCharAbsent("\\n", '\'', "\\'");
      Doubled("\\n");
    }
  }

  /** The tab and NUL each meet their rule and then the backslash rule. */
  lemma ThroughRules56(c: char)
    requires c == '\t' || c == '\0'
    ensures EscapeAsWritten([c]) == AsWrittenChar(c)
  {
    if c == '\t' {
      ReplaceCharAbsent([c], '\U{8}', "\\b");
      ReplaceCharAbsent([c], '\r', "\\r");
      ReplaceCharAbsent([c], '\U{c}', "\\f");
      ReplaceCharAbsent([c], '\n', "\\n");
      ReplaceCharOne(c, "\\t");
      ReplaceCharAbsent("\\t", '\0', "\\0");
      ReplaceCharAbsent("\\t", '\'', "\\'");
      Doubled("\\t");
    } else {
      ReplaceCharAbsent([c], '\U{8}', "\\b");
      ReplaceCharAbsent([c], '\r', "\\r");
      ReplaceCharAbsent([c], '\U{c}', "\\f");
      ReplaceCharAbsent([c], '\n', "\\n");
      ReplaceCharAbsent([c], '\t', "\\t");
      ReplaceCharOne(c, "\\0");
      ReplaceCharAbsent("\\0", '\'', "\\'");
      Doubled("\\0");
    }
  }

  /** The quote meets its rule and then the backslash rule; a backslash meets only the
      last rule; any other character passes every rule. */
  lemma ThroughLastTwo(c: char)
    requires !(c == '\U{8}' || c == '\r' || c == '\U{c}' || c == '\n' || c == '\t' || c == '\0')
    ensures EscapeAsWritten([c]) == AsWrittenChar(c)
  {
    if c == '\'' {
      ReplaceCharAbsent([c], '\U{8}', "\\b");
      ReplaceCharAbsent([c], '\r', "\\r");
      ReplaceCharAbsent([c], '\U{c}', "\\f");
      ReplaceCharAbsent([c], '\n', "\\n");
      ReplaceCharAbsent([c], '\t', "\\t");
      ReplaceCharAbsent([c], '\0', "\\0");
      ReplaceCharOne(c, "\\'");
      Doubled("\\'");
    } else {
      ReplaceCharAbsent([c], '\U{8}', "\\b");
      ReplaceCharAbsent([c], '\r', "\\r");
      ReplaceCharAbsent([c], '\U{c}', "\\f");
      ReplaceCharAbsent([c], '\n', "\\n");
      ReplaceCharAbsent([c], '\t', "\\t");
      ReplaceCharAbsent([c], '\0', "\\0");
      ReplaceCharAbsent([c], '\'', "\\'");
      if c == '\\' {
        ReplaceCharOne(c, "\\\\");
      } else {
        ReplaceCharAbsent([c], '\\', "\\\\");
      }
    }
  }

  /** The chained escape works character by character. */
  lemma {:induction false} EscapeAsWrittenSplit(s: string)
    requires |s| > 0
    ensures EscapeAsWritten(s) == AsWrittenChar(s[0]) + EscapeAsWritten(s[1..])
  {
    assert s == [s[0]] + s[1..];
    EscapeAsWrittenAppend([s[0]], s[1..]);
    EscapeAsWrittenChar(s[0]);
  }

  /** What the server stores for a text that `_escape_data` escaped as written: every
      character of the first seven rules comes back as a backslash and its letter, and only
      backslashes and the other characters come back as they were. */
  lemma {:induction false} StoredAsWritten(s: string)
    ensures Unescape(EscapeAsWritten(s)) == StoredText(s)
    decreases |s|
  {
    if |s| > 0 {
      EscapeAsWrittenSplit(s);
      StoredAsWritten(s[1..]);
      StoredCharReadsBack(s[0], EscapeAsWritten(s[1..]));
    }
  }

  lemma StoredCharReadsBack(c: char, rest: string)
    ensures Unescape(AsWrittenChar(c) + rest) == StoredChar(c) + Unescape(rest)
  {
    var e := AsWrittenChar(c);
    if Escapable(c) {
      assert (e + rest)[2..] == [e[2]] + rest;
      assert ([e[2]] + rest)[1..] == rest;
      assert StoredChar(c) == [e[1], e[2]];
    } else {
      EscapeCharReadsBack(c, rest);
    }
  }

  /** The server gets the text back exactly when it holds none of the characters of the
      first seven rules: a newline, a tab or a quote is stored as two characters. */
  lemma {:induction false} StoredTextIff(s: string)
    ensures StoredText(s) == s <==> forall i :: 0 <= i < |s| ==> !Escapable(s[i])
    ensures |StoredText(s)| >= |s|
    decreases |s|
  {
    if |s| > 0 {
      StoredTextIff(s[1..]);
      if Escapable(s[0]) {
        assert |StoredText(s)| > |s|;
      } else {
        assert StoredText(s) == [s[0]] + StoredText(s[1..]);
        assert s == [s[0]] + s[1..];
        assert (forall i :: 0 <= i < |s| ==> !Escapable(s[i])) <==>
               (forall i :: 0 <= i < |s[1..]| ==> !Escapable(s[1..][i]));
      }
    }
  }

  /** On a text with none of those characters the chained escape is the one-pass `Escape`. */
  lemma {:induction false} AsWrittenAgrees(s: string)
    requires forall i :: 0 <= i < |s| ==> !Escapable(s[i])
    ensures EscapeAsWritten(s) == Escape(s)
    decreases |s|
  {
    if |s| > 0 {
      EscapeAsWrittenSplit(s);
      AsWrittenAgrees(s[1..]);
    }
  }

  /** The text `a`, newline, backslash: the newline rule writes a backslash and `n`, the
      backslash rule then doubles both backslashes, and the server stores `a`, backslash,
      `n`, backslash instead of the text. */
  lemma NewlineStoredAsLetters(s: string)
    requires s == ['a', '\n', '\\']
    ensures EscapeAsWritten(s) == ['a', '\\', '\\', 'n', '\\', '\\']
    ensures Unescape(EscapeAsWritten(s)) == ['a', '\\', 'n', '\\'] != s
  {
    ExampleAsWritten(s);
    StoredAsWritten(s);
    ExampleStored(s);
    assert s[1] == '\n' != '\\';
  }

  lemma ExampleAsWritten(s: string)
    requires s == ['a', '\n', '\\']
    ensures EscapeAsWritten(s) == ['a', '\\', '\\', 'n', '\\', '\\']
  {
    EscapeAsWrittenSplit(s);
    EscapeAsWrittenSplit(s[1..]);
    EscapeAsWrittenSplit(s[2..]);
    assert s[3..] == [];
    assert AsWrittenChar('a') == ['a'];
    assert AsWrittenChar('\n') == ['\\', '\\', 'n'];
    assert AsWrittenChar('\\') == ['\\', '\\'];
  }

  lemma ExampleStored(s: string)
    requires s == ['a', '\n', '\\']
    ensures StoredText(s) == ['a', '\\', 'n', '\\']
  {
    assert StoredText(s[3..]) == [];
    assert StoredText(s[2..]) == ['\\'];
    assert StoredText(s[1..]) == ['\\', 'n', '\\'];
  }

  /** `_escape_data`'s columns: those typed `String` in `column_types` that the frame holds
      as objects (text). */
  function EscapedColumns(columnTypes: Dict<string, string>, objectColumns: set<string>): set<string>
  {
    set k | 0 <= k < |columnTypes| && columnTypes[k].1 == "String" && columnTypes[k].0 in objectColumns
      :: columnTypes[k].0
  }

  function EscapeCell(v: Value): Value
  {
    if v.Text? then Text(Escape(v.s)) else v
  }

  function EscapeRow(row: Row, cols: set<string>): (r: Row)
    ensures r.Keys == row.Keys
  {
    map c | c in row :: if c in cols then EscapeCell(row[c]) else row[c]
  }

  /** `_escape_data`: the text cells of the escaped columns are escaped; every other cell,
      and the columns, stay as they are. */
  function EscapeData(df: Frame, columnTypes: Dict<string, string>, objectColumns: set<string>): (r: Frame)
    ensures r.columns == df.columns && |r.rows| == |df.rows|
    ensures forall i :: 0 <= i < |df.rows| ==>
              r.rows[i] == EscapeRow(df.rows[i], EscapedColumns(columnTypes, objectColumns))
  {
    var cols := EscapedColumns(columnTypes, objectColumns);
    Frame(df.columns, seq(|df.rows|, i requires 0 <= i < |df.rows| => EscapeRow(df.rows[i], cols)))
  }

  /** After `_escape_data` no escaped column holds a raw control character, and the other
      columns are untouched. */
  lemma EscapeDataCells(df: Frame, columnTypes: Dict<string, string>, objectColumns: set<string>,
                        i: nat, c: string)
    requires i < |df.rows| && c in df.rows[i]
    ensures var cell := EscapeData(df, columnTypes, objectColumns).rows[i][c];
      if c in EscapedColumns(columnTypes, objectColumns) then
        (df.rows[i][c].Text? <==> cell.Text?) &&
        (cell.Text? ==> forall j :: 0 <= j < |cell.s| ==> !RawControl(cell.s[j]))
      else cell == df.rows[i][c]
  {
  }

  /** Text the server reads without change: cells outside the escaped columns must hold no
      backslash. */
  predicate ReadsAsIs(row: Row, cols: set<string>)
  {
    forall c :: c in row && c !in cols && row[c].Text? ==> '\\' !in row[c].s
  }

  /** An escaped row is read by the server as the row it was made from. */
  lemma EscapedRowReadsBack(row: Row, cols: set<string>)
    requires ReadsAsIs(row, cols)
    ensures ReadRow(EscapeRow(row, cols)) == row
  {
    forall c | c in row
      ensures ReadRow(EscapeRow(row, cols))[c] == row[c]
    {
      if row[c].Text? {
        if c in cols {
          EscapeReadsBack(row[c].s);
        } else {
          UnescapePlain(row[c].s);
        }
      }
    }
  }

  // ----- the controller -----

  /** What `insert_data` uploads: the export columns of the frame (`KeyError` naming a
      missing one), escaped. */
  function Upload(def: DbTableDefinition, df: Frame, objectColumns: set<string>): (r: Result<seq<Row>, string>)
    ensures r.Err? <==> Select(df, def.exportFields).Err?
    ensures r.Err? ==> r.error in def.exportFields && r.error !in df.columns
    ensures r.Ok? ==> |r.value| == |df.rows|
  {
    match Select(df, def.exportFields)
    case Err(c) => Err(c)
    case Ok(selected) => Ok(EscapeData(selected, def.columnTypes, objectColumns).rows)
  }

  /** The server stores exactly the export columns of each row of the frame, in order,
      when the text it reads as is holds no backslash. */
  lemma UploadReadsBack(def: DbTableDefinition, df: Frame, objectColumns: set<string>)
    requires Upload(def, df, objectColumns).Ok?
    requires forall i :: 0 <= i < |df.rows| ==>
               ReadsAsIs(Restrict(df.rows[i], def.exportFields), EscapedColumns(def.columnTypes, objectColumns))
    ensures ReadRows(Upload(def, df, objectColumns).value)
         == seq(|df.rows|, i requires 0 <= i < |df.rows| => Restrict(df.rows[i], def.exportFields))
  {
    var selected := Select(df, def.exportFields).value;
    var cols := EscapedColumns(def.columnTypes, objectColumns);
    var up := Upload(def, df, objectColumns).value;
    forall i | 0 <= i < |df.rows|
      ensures ReadRows(up)[i] == Restrict(df.rows[i], def.exportFields)
    {
      EscapedRowReadsBack(selected.rows[i], cols);
    }
  }

  /** The table `prepare` makes: the definition's columns and engine, no rows. */
  function NewTable(def: DbTableDefinition): Table
  {
    Table(def.fieldTypes, TableEngine(def.dateField, def.samplingField, def.primaryKeys), [])
  }

  /** An existing table that `is_valid_scheme` accepts. */
  predicate Acceptable(tables: Dict<string, Table>, def: DbTableDefinition)
  {
    Get(tables, def.tableName).Some? && FieldsAppear(Get(tables, def.tableName).value.fields, def.fieldTypes)
  }

  /** The names the server lists read back as they are. */
  predicate PlainServer(db: ClickhouseDatabase, def: DbTableDefinition)
    reads db
  {
    PlainName(db.dbName) && PlainNames(db.databases) && PlainNames(Keys(db.tables)) && PlainName(def.tableName)
  }

  class DbController {
    const db: ClickhouseDatabase
    const definition: DbTableDefinition

    constructor(db: ClickhouseDatabase, definition: DbTableDefinition)
      ensures this.db == db && this.definition == definition
    {
      this.db := db;
      this.definition := definition;
    }

    /** `prepare`: the database is created when missing; the table is dropped and created
        again when missing or when its columns do not match, and kept otherwise. */
    method Prepare() returns (ok: bool)
      requires db.Valid()
      modifies db
      ensures db.Valid()
      ensures old(PlainServer(db, definition)) ==> ok
      ensures ok ==> db.dbName in db.databases && Get(db.tables, definition.tableName).Some?
      ensures ok && old(PlainServer(db, definition)) && old(Acceptable(db.tables, definition)) ==>
                db.tables == old(db.tables) && db.databases == old(db.databases)
      ensures ok && !old(Acceptable(db.tables, definition)) ==>
                db.tables == RemoveKey(old(db.tables), definition.tableName) + [(definition.tableName, NewTable(definition))]
    {
      var table := definition.tableName;
      var present := db.DatabaseExists();
      ok := true;
      if !present {
        ok := db.CreateDatabase();
        if !ok {
          return;
        }
      }
      var listed;
      ok, listed := db.TableExists(table);
      if !ok {
        return;
      }
      var create := true;
      if listed {
        var valid;
        ok, valid := db.IsValidScheme(table, definition.fieldTypes);
        if !ok {
          return;
        }
        create := !valid;
      }
      if create {
        db.DropTable(table);
        ok := db.CreateTable(table, definition.fieldTypes, definition.dateField,
                             definition.samplingField, definition.primaryKeys);
        SetAppends(RemoveKey(old(db.tables), table), table, NewTable(definition));
      }
    }

    /** `insert_data`: the frame's export columns, escaped, go into the table through the
        temporary table, keyed by the unique keys. A missing export column raises
        `KeyError` before anything is sent; a missing table stops the insert. */
    method InsertData(df: Frame, objectColumns: set<string>) returns (r: Result<(), string>)
      requires db.Valid()
      modifies db
      ensures db.Valid()
      ensures Upload(definition, df, objectColumns).Err? ==>
                r == Err(Upload(definition, df, objectColumns).error) && db.tables == old(db.tables)
      ensures Upload(definition, df, objectColumns).Ok? ==> (r.Ok? <==> Get(old(db.tables), definition.tableName).Some?)
      ensures r.Ok? ==>
                db.tables == DistinctInsertion(old(db.tables), definition.tableName,
                                               Upload(definition, df, objectColumns).value,
                                               definition.uniqueKeys, TempTableName(definition.tableName))
      ensures Upload(definition, df, objectColumns).Ok? && r.Err? ==>
                db.tables == RemoveKey(old(db.tables), TempTableName(definition.tableName))
      ensures db.databases == old(db.databases)
    {
      var up := Upload(definition, df, objectColumns);
      if up.Err? {
        return Err(up.error);
      }
      var ok := db.InsertDistinct(definition.tableName, up.value, definition.uniqueKeys,
                                  TempTableName(definition.tableName));
      r := if ok then Ok(()) else Err("table missing");
    }

    /** `cleanup`: the temporary table goes, and nothing else. */
    method Cleanup()
      requires db.Valid()
      modifies db
      ensures db.Valid()
      ensures db.tables == RemoveKey(old(db.tables), TempTableName(definition.tableName))
      ensures db.databases == old(db.databases)
    {
      db.DropTable(TempTableName(definition.tableName));
    }
  }

  /** What `insert_data` leaves in the table: its rows, then the uploaded rows whose unique
      key it did not hold; the temporary table holds the upload; other tables are as they
      were. */
  lemma InsertDataEffect(tables: Dict<string, Table>, def: DbTableDefinition, rows: seq<Row>)
    requires UniqueKeys(tables) && Get(tables, def.tableName).Some?
    ensures var temp := TempTableName(def.tableName);
      var after := DistinctInsertion(tables, def.tableName, rows, def.uniqueKeys, temp);
      var t := Get(tables, def.tableName).value;
      Get(after, def.tableName) == Some(t.(rows := t.rows + Absent(ReadRows(rows), KeySet(t.rows, def.uniqueKeys), def.uniqueKeys))) &&
      Get(after, temp) == Some(t.(rows := ReadRows(rows))) &&
      Get(RemoveKey(after, temp), temp).None? &&
      forall n :: n != def.tableName && n != temp ==> Get(RemoveKey(after, temp), n) == Get(tables, n)
  {
    DistinctInsertionEffect(tables, def.tableName, rows, def.uniqueKeys, TempTableName(def.tableName));
  }

  // ----- the collection -----

  /** `DbControllersCollection`: one controller per source, made from the source's table
      definition and prepared the first time the source is asked for, then kept. */
  class DbControllersCollection {
    const db: ClickhouseDatabase
    /** `sources_collection.db_table_definition` */
    const definitionOf: string -> DbTableDefinition
    var controllers: map<string, DbController>
    /** Every `prepare` run so far: the source and whether it succeeded. */
    ghost var prepared: seq<(string, bool)>

    constructor(db: ClickhouseDatabase, definitionOf: string -> DbTableDefinition)
      ensures this.db == db && this.definitionOf == definitionOf
      ensures controllers == map[] && prepared == []
      ensures Valid()
    {
      this.db := db;
      this.definitionOf := definitionOf;
      controllers := map[];
      prepared := [];
    }

    /** Each kept controller talks to the collection's server about its source's table, was
        prepared with success, and a source prepared with success is never prepared again. */
    ghost predicate Valid()
      reads this
    {
      KeptAsPrepared(controllers, prepared, db, definitionOf)
    }

    /** `db_controller(source)`: the kept controller, or a new one that is prepared and kept
        when `prepare` succeeds. */
    method ControllerFor(source: string) returns (c: DbController, ok: bool)
      requires Valid() && db.Valid()
      modifies this, db
      ensures Valid() && db.Valid()
      ensures source in old(controllers) ==>
                ok && c == old(controllers[source]) && controllers == old(controllers) &&
                prepared == old(prepared) && unchanged(db)
      ensures source !in old(controllers) ==>
                fresh(c) && c.db == db && c.definition == definitionOf(source) &&
                prepared == old(prepared) + [(source, ok)] &&
                controllers == if ok then old(controllers)[source := c] else old(controllers)
      ensures source !in old(controllers) ==> var def := definitionOf(source);
        && (old(PlainServer(db, def)) ==> ok)
        && (ok ==> db.dbName in db.databases && Get(db.tables, def.tableName).Some?)
        && (ok && old(PlainServer(db, def)) && old(Acceptable(db.tables, def)) ==>
              db.tables == old(db.tables) && db.databases == old(db.databases))
        && (ok && !old(Acceptable(db.tables, def)) ==>
              db.tables == RemoveKey(old(db.tables), def.tableName) + [(def.tableName, NewTable(def))])
    {
      if source in controllers {
        c := controllers[source];
        ok := true;
      } else {
        c := new DbController(db, definitionOf(source));
        ok := c.Prepare();
        KeepPrepared(controllers, prepared, db, definitionOf, source, c, ok);
        prepared := prepared + [(source, ok)];
        if ok {
          controllers := controllers[source := c];
        }
      }
    }
  }

  /** Each kept controller talks to the server about its source's table, was prepared with
      success, and a source prepared with success is never prepared again. */
  ghost predicate KeptAsPrepared(controllers: map<string, DbController>, prepared: seq<(string, bool)>,
                                 db: ClickhouseDatabase, definitionOf: string -> DbTableDefinition)
  {
    && (forall s :: s in controllers ==> controllers[s].db == db && controllers[s].definition == definitionOf(s))
    && (forall s :: s in controllers <==> (s, true) in prepared)
    && (forall i, j :: 0 <= i < j < |prepared| && prepared[i].1 ==> prepared[j].0 != prepared[i].0)
  }

  /** Preparing a source that has no controller yet, and keeping the controller when that
      succeeds, keeps the collection consistent. */
  lemma KeepPrepared(controllers: map<string, DbController>, prepared: seq<(string, bool)>,
                     db: ClickhouseDatabase, definitionOf: string -> DbTableDefinition,
                     source: string, c: DbController, ok: bool)
    requires KeptAsPrepared(controllers, prepared, db, definitionOf) && source !in controllers
    requires c.db == db && c.definition == definitionOf(source)
    ensures KeptAsPrepared(if ok then controllers[source := c] else controllers, prepared + [(source, ok)],
                           db, definitionOf)
  {
    var kept := if ok then controllers[source := c] else controllers;
    var after := prepared + [(source, ok)];
    forall s
      ensures s in kept <==> (s, true) in after
    {
      assert (s, true) in after <==> (s, true) in prepared || (s, true) == (source, ok);
    }
    forall i, j | 0 <= i < j < |after| && after[i].1
      ensures after[j].0 != after[i].0
    {
      assert after[i] == prepared[i];
      if j == |prepared| {
        assert prepared[i] == (prepared[i].0, true);
        assert prepared[i].0 in controllers;
      } else {
        assert after[j] == prepared[j];
      }
    }
  }
}
