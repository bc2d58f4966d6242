/** `FileStateStorage` of `state_storage.py`: the legacy state is the JSON object of the
    `State`'s attributes. Loading merges the file's object, or its list of key-value pairs,
    over a fresh `State`; a missing
    or unreadable file gives a fresh `State`. */
module LegacyStorage {
  import opened Common
  import opened Dicts
  import opened JsonValues
  import opened Calendar
  import opened LegacyState

  // ----- save -----

  function StampsJson(entries: Dict<string, Timestamp>): (j: seq<(string, Json)>)
    ensures Keys(j) == Keys(entries)
    ensures forall i :: 0 <= i < |entries| ==> j[i] == (entries[i].0, JNum(entries[i].1))
  {
    if entries == [] then []
    else
      var j := [(entries[0].0, JNum(entries[0].1))] + StampsJson(entries[1..]);
      assert Keys(j) == [entries[0].0] + Keys(StampsJson(entries[1..]));
      assert Keys(entries) == [entries[0].0] + Keys(entries[1..]);
      j
  }

  function AppsJson(apps: Dict<string, Dict<string, Timestamp>>): (j: seq<(string, Json)>)
    ensures Keys(j) == Keys(apps)
    ensures forall i :: 0 <= i < |apps| ==> j[i] == (apps[i].0, JObject(StampsJson(apps[i].1)))
  {
    if apps == [] then []
    else
      var j := [(apps[0].0, JObject(StampsJson(apps[0].1)))] + AppsJson(apps[1..]);
      assert Keys(j) == [apps[0].0] + Keys(AppsJson(apps[1..]));
      assert Keys(apps) == [apps[0].0] + Keys(apps[1..]);
      j
  }

  /** Every application's stamps with their date keys in sorted order, and the
      applications in the order of their keys. */
  function SortedDates(dates: Dict<string, Dict<string, Timestamp>>): (r: Dict<string, Dict<string, Timestamp>>)
    ensures multiset(r) == multiset(SortEach(dates))
  {
    SortByKey(SortEach(dates))
  }

  /** Each application's stamps sorted by date key, the applications in place. */
  function SortEach(dates: Dict<string, Dict<string, Timestamp>>): (r: Dict<string, Dict<string, Timestamp>>)
    ensures |r| == |dates| && Keys(r) == Keys(dates)
    ensures forall i :: 0 <= i < |dates| ==> r[i] == (dates[i].0, SortByKey(dates[i].1))
  {
    seq(|dates|, i requires 0 <= i < |dates| => (dates[i].0, SortByKey(dates[i].1)))
  }

  /** `save`: `state.__dict__` as a JSON object; `sort_keys=True` sorts the keys of every
      object written, the three attributes as well as the applications and their dates. */
  function SaveLegacy(st: State): (j: Json)
    ensures j.JObject? && KeysSorted(j.pairs)
  {
    AttributeNamesOrdered();
    JObject([
      ("date_update_time", JObject(AppsJson(SortedDates(st.dateUpdateTime)))),
      ("db_scheme", SchemeJson(st.dbScheme)),
      ("last_update_time", StampJson(st.lastUpdateTime))
    ])
  }

  /** `db_scheme` as the file holds it: a string, or `null`. */
  function SchemeJson(scheme: Option<string>): Json
  {
    match scheme case None => JNull case Some(s) => JString(s)
  }

  /** `last_update_time` as the file holds it: a number, or `null`. */
  function StampJson(stamp: Option<Timestamp>): Json
  {
    match stamp case None => JNull case Some(t) => JNum(t)
  }

  // ----- load -----

  function DecodeStamps(d: Dict<string, Json>): (r: Result<Dict<string, Timestamp>, string>)
    ensures r.Ok? ==> Keys(r.value) == Keys(d)
  {
    if d == [] then Ok([])
    else
      match d[0].1
      case JNum(n) =>
        (match DecodeStamps(d[1..])
         case Err(e) => Err(e)
         case Ok(rest) =>
           assert Keys(d) == [d[0].0] + Keys(d[1..]);
           var r := [(d[0].0, n)] + rest;
           assert Keys(r) == [d[0].0] + Keys(rest);
           Ok(r))
      case _ => Err("date_update_time entry is not a number")
  }

  function DecodeApps(d: Dict<string, Json>): (r: Result<Dict<string, Dict<string, Timestamp>>, string>)
    ensures r.Ok? ==> Keys(r.value) == Keys(d)
  {
    if d == [] then Ok([])
    else
      match d[0].1
      case JObject(pairs) =>
        (match DecodeStamps(FromPairs(pairs))
         case Err(e) => Err(e)
         case Ok(entries) =>
           match DecodeApps(d[1..])
           case Err(e) => Err(e)
           case Ok(rest) =>
             assert Keys(d) == [d[0].0] + Keys(d[1..]);
             var r := [(d[0].0, entries)] + rest;
             assert Keys(r) == [d[0].0] + Keys(rest);
             Ok(r))
      case _ => Err("date_update_time of an application is not an object")
  }

  /** The `db_scheme` a value of the file gives; absent keeps the default `None`. */
  function SchemeOf(v: Option<Json>): Result<Option<string>, string>
  {
    match v
    case None => Ok(None)
    case Some(JNull) => Ok(None)
    case Some(JString(s)) => Ok(Some(s))
    case Some(_) => Err("db_scheme is not a string")
  }

  /** The `last_update_time` a value of the file gives; absent keeps the default `None`. */
  function StampOf(v: Option<Json>): Result<Option<Timestamp>, string>
  {
    match v
    case None => Ok(None)
    case Some(JNull) => Ok(None)
    case Some(JNum(n)) => Ok(Some(n))
    case Some(_) => Err("last_update_time is not a number")
  }

  /** The `date_update_time` a value of the file gives; absent keeps the default `{}`. */
  function DatesOf(v: Option<Json>): Result<Dict<string, Dict<string, Timestamp>>, string>
  {
    match v
    case None => Ok([])
    case Some(JObject(pairs)) => DecodeApps(FromPairs(pairs))
    case Some(_) => Err("date_update_time is not an object")
  }

  /** `state.__dict__.update(obj)` for the three attributes of a `State`; a value of a type
      the state cannot hold is an error. What merges has distinct keys at both levels, and
      an empty object leaves the fresh `State`. */
  function Merge(obj: Dict<string, Json>): (r: Result<State, string>)
    ensures r.Ok? ==> WellKeyed(r.value)
    ensures obj == [] ==> r == Ok(EmptyState)
  {
    DatesOfWellKeyed(Get(obj, "date_update_time"));
    var scheme := SchemeOf(Get(obj, "db_scheme"));
    var last := StampOf(Get(obj, "last_update_time"));
    var dates := DatesOf(Get(obj, "date_update_time"));
    if scheme.Err? then Err(scheme.error)
    else if last.Err? then Err(last.error)
    else if dates.Err? then Err(dates.error)
    else Ok(State(scheme.value, last.value, dates.value))
  }

  /** `dict.update` on an element that does not iterate to exactly a key and a value. */
  const PairLengthError := "ValueError: dictionary update sequence element has length other than 2"

  /** One element of a list given to `dict.update`: it must iterate to exactly two items, the
      key and the value. A two-element list gives them; a two-character string gives its two
      characters; an object with two keys gives its keys. A key that is not a string makes an
      attribute no `State` field reads, so it is dropped (`None`); a list or an object as key
      is unhashable. */
  function UpdatePair(item: Json): (r: Result<Option<(string, Json)>, string>)
    ensures item.JArray? && |item.items| == 2 && item.items[0].JString? ==>
              r == Ok(Some((item.items[0].s, item.items[1])))
    ensures item.JNull? || item.JBool? || item.JNum? ==> r.Err?
    ensures (item.JArray? && |item.items| != 2) || (item.JString? && |item.s| != 2) ==> r == Err(PairLengthError)
  {
    match item
    case JArray(xs) =>
      if |xs| != 2 then Err(PairLengthError)
      else if xs[0].JString? then Ok(Some((xs[0].s, xs[1])))
      else if xs[0].JArray? || xs[0].JObject? then Err("TypeError: unhashable type")
      else Ok(None)
    case JString(t) =>
      if |t| != 2 then Err(PairLengthError) else Ok(Some((t[..1], JString(t[1..]))))
    case JObject(ps) =>
      var d := FromPairs(ps);
      if |d| != 2 then Err(PairLengthError) else Ok(Some((d[0].0, JString(d[1].0))))
    case _ => Err("TypeError: cannot convert dictionary update sequence element to a sequence")
  }

  /** `dict.update` on a list: the key-value pairs of its elements in order, or the error of
      the first element that is not a pair. */
  function UpdatePairs(items: seq<Json>): (r: Result<seq<(string, Json)>, string>)
    ensures |items| == 0 ==> r == Ok([])
  {
    if items == [] then Ok([])
    else
      match UpdatePairs(items[..|items| - 1])
      case Err(e) => Err(e)
      case Ok(init) =>
        match UpdatePair(items[|items| - 1])
        case Err(e) => Err(e)
        case Ok(None) => Ok(init)
        case Ok(Some(p)) => Ok(init + [p])
  }

  /** `load`: a fresh `State` for a missing or unreadable file, the file's object merged
      over a fresh `State`, or the file's list of pairs (an empty list or an empty string
      is an empty one) merged alike; whatever loads has distinct keys at both levels. */
  function LoadLegacy(content: FileContent): (r: Result<State, string>)
    ensures content.NoFile? || content.NotJson? ==> r == Ok(EmptyState)
    ensures content == Parsed(JArray([])) || content == Parsed(JString("")) ==> r == Ok(EmptyState)
    ensures content.Parsed? && content.value.JString? && content.value.s != "" ==> r == Err(PairLengthError)
    ensures content.Parsed? && (content.value.JNull? || content.value.JBool? || content.value.JNum?) ==> r.Err?
    ensures r.Ok? ==> WellKeyed(r.value)
  {
    match content
    case NoFile => Ok(EmptyState)
    case NotJson => Ok(EmptyState)
    case Parsed(JObject(pairs)) => Merge(FromPairs(pairs))
    case Parsed(JArray(items)) =>
      (match UpdatePairs(items)
       case Err(e) => Err(e)
       case Ok(pairs) => Merge(FromPairs(pairs)))
    // every character of a non-empty string is an element of length 1
    case Parsed(JString(t)) => if t == "" then Ok(EmptyState) else Err(PairLengthError)
    case Parsed(_) => Err("TypeError: the file's value is not iterable")
  }

  /** The list of string-keyed pairs that `dict.update` takes like an object. */
  function PairItems(pairs: seq<(string, Json)>): (items: seq<Json>)
    ensures |items| == |pairs|
  {
    seq(|pairs|, i requires 0 <= i < |pairs| => JArray([JString(pairs[i].0), pairs[i].1]))
  }

  /** A file holding a list of `[key, value]` pairs loads as the object of those pairs. */
  lemma LoadPairList(pairs: seq<(string, Json)>)
    ensures LoadLegacy(Parsed(JArray(PairItems(pairs)))) == LoadLegacy(Parsed(JObject(pairs)))
  {
    UpdatePairItems(pairs);
  }

  lemma {:induction false} UpdatePairItems(pairs: seq<(string, Json)>)
    ensures UpdatePairs(PairItems(pairs)) == Ok(pairs)
  {
    if pairs != [] {
      var n := |pairs|;
      var items := PairItems(pairs);
      assert UpdatePairs(items[..n - 1]) == Ok(pairs[..n - 1]) by {
        assert items[..n - 1] == PairItems(pairs[..n - 1]);
        UpdatePairItems(pairs[..n - 1]);
      }
      assert UpdatePair(items[n - 1]) == Ok(Some(pairs[n - 1])) by {
        assert items[n - 1] == JArray([JString(pairs[n - 1].0), pairs[n - 1].1]);
      }
      assert pairs[..n - 1] + [pairs[n - 1]] == pairs;
    }
  }

  // ----- properties -----

  lemma SameKeysUnique<V, W>(a: Dict<string, V>, b: Dict<string, W>)
    requires Keys(a) == Keys(b) && UniqueKeys(a)
    ensures UniqueKeys(b)
  {
    forall i, j | 0 <= i < j < |b|
      ensures b[i].0 != b[j].0
    {
      assert Keys(b)[i] == Keys(a)[i] && Keys(b)[j] == Keys(a)[j];
    }
  }

  lemma {:induction false} DecodeAppsWellKeyed(d: Dict<string, Json>)
    ensures DecodeApps(d).Ok? ==> forall e :: e in DecodeApps(d).value ==> UniqueKeys(e.1)
    decreases |d|
  {
    if d != [] && d[0].1.JObject? {
      var entries := DecodeStamps(FromPairs(d[0].1.pairs));
      if entries.Ok? {
        SameKeysUnique(FromPairs(d[0].1.pairs), entries.value);
      }
      DecodeAppsWellKeyed(d[1..]);
    }
  }

  /** A missing file, a file that is not JSON and an empty object all load as `State()`. */
  lemma LoadDefaults(content: FileContent)
    requires content == NoFile || content == NotJson || content == Parsed(JObject([]))
    ensures LoadLegacy(content) == Ok(EmptyState)
  {
  }

  lemma DatesOfWellKeyed(v: Option<Json>)
    ensures DatesOf(v).Ok? ==>
              UniqueKeys(DatesOf(v).value) && forall e :: e in DatesOf(v).value ==> UniqueKeys(e.1)
  {
    if v.Some? && v.value.JObject? {
      var apps := FromPairs(v.value.pairs);
      DecodeAppsWellKeyed(apps);
      if DecodeApps(apps).Ok? {
        SameKeysUnique(apps, DecodeApps(apps).value);
      }
    }
  }

  lemma {:induction false} DecodeStampsJson(entries: Dict<string, Timestamp>)
    ensures DecodeStamps(StampsJson(entries)) == Ok(entries)
    decreases |entries|
  {
    if entries != [] {
      DecodeStampsJson(entries[1..]);
      var sj := StampsJson(entries);
      assert sj[0] == (entries[0].0, JNum(entries[0].1));
      assert sj[1..] == StampsJson(entries[1..]);
      assert DecodeStamps(sj) == Ok([(entries[0].0, entries[0].1)] + entries[1..]);
      assert [entries[0]] + entries[1..] == entries;
    }
  }

  lemma {:induction false} DecodeAppsJson(apps: Dict<string, Dict<string, Timestamp>>)
    requires forall e :: e in apps ==> UniqueKeys(e.1)
    ensures DecodeApps(AppsJson(apps)) == Ok(apps)
    decreases |apps|
  {
    if apps != [] {
      var stamps := StampsJson(apps[0].1);
      SameKeysUnique(apps[0].1, stamps);
      FromPairsUnique(stamps);
      DecodeStampsJson(apps[0].1);
      DecodeAppsJson(apps[1..]);
      var aj := AppsJson(apps);
      assert aj[0] == (apps[0].0, JObject(stamps));
      assert aj[1..] == AppsJson(apps[1..]);
      assert DecodeApps(aj) == Ok([(apps[0].0, apps[0].1)] + apps[1..]);
      assert [apps[0]] + apps[1..] == apps;
    }
  }

  /** The three attribute names in `sort_keys` order. */
  lemma AttributeNamesOrdered()
    ensures TextLe("date_update_time", "db_scheme") && TextLe("db_scheme", "last_update_time")
    ensures TextLe("date_update_time", "last_update_time")
  {
  }

  /** Entries with the same keys in the same order are in key order together. */
  lemma SameKeysSorted<V, W>(a: Dict<string, V>, b: Dict<string, W>)
    requires Keys(a) == Keys(b) && KeysSorted(a)
    ensures KeysSorted(b)
  {
    forall i, j | 0 <= i < j < |b|
      ensures TextLe(b[i].0, b[j].0)
    {
      assert Keys(b)[i] == Keys(a)[i] && Keys(b)[j] == Keys(a)[j];
    }
  }

  /** The three attribute names differ (in their first two letters). */
  lemma AttributeNamesDiffer()
    ensures "date_update_time" != "db_scheme" && "db_scheme" != "last_update_time"
    ensures "date_update_time" != "last_update_time"
  {
    assert "date_update_time"[1] == 'a' && "db_scheme"[1] == 'b';
    assert "last_update_time"[0] == 'l' && "db_scheme"[0] == 'd';
  }

  lemma SavedMembers(st: State)
    ensures var top := SaveLegacy(st).pairs;
            UniqueKeys(top) &&
            Get(top, "date_update_time") == Some(JObject(AppsJson(SortedDates(st.dateUpdateTime)))) &&
            SchemeOf(Get(top, "db_scheme")) == Ok(st.dbScheme) &&
            StampOf(Get(top, "last_update_time")) == Ok(st.lastUpdateTime)
  {
    AttributeNamesDiffer();
    Get3("date_update_time", "db_scheme", "last_update_time",
      JObject(AppsJson(SortedDates(st.dateUpdateTime))), SchemeJson(st.dbScheme), StampJson(st.lastUpdateTime));
    SchemeReadsBack(st.dbScheme);
    StampReadsBack(st.lastUpdateTime);
  }

  lemma SchemeReadsBack(scheme: Option<string>)
    ensures SchemeOf(Some(SchemeJson(scheme))) == Ok(scheme)
  {
  }

  lemma StampReadsBack(stamp: Option<Timestamp>)
    ensures StampOf(Some(StampJson(stamp))) == Ok(stamp)
  {
  }

  /** The state as a save and a load leave it: its dictionaries in key order. */
  function Resorted(st: State): State
  {
    st.(dateUpdateTime := SortedDates(st.dateUpdateTime))
  }

  /** Sorting leaves a well-keyed state well keyed, and in key order at both levels. */
  lemma ResortedWellKeyed(st: State)
    requires WellKeyed(st)
    ensures WellKeyed(Resorted(st))
    ensures KeysSorted(Resorted(st).dateUpdateTime)
    ensures forall e :: e in Resorted(st).dateUpdateTime ==> KeysSorted(e.1)
  {
    var each := SortEach(st.dateUpdateTime);
    SameKeysUnique(st.dateUpdateTime, each);
    SortByKeyGet(each, "");
    SortByKeySorted(each);
    SortedEntries(st.dateUpdateTime);
  }

  /** Each application's stamps, once sorted, have distinct keys in key order. */
  lemma SortedEntries(dates: Dict<string, Dict<string, Timestamp>>)
    requires forall e :: e in dates ==> UniqueKeys(e.1)
    ensures forall e :: e in SortedDates(dates) ==> UniqueKeys(e.1) && KeysSorted(e.1)
  {
    var each := SortEach(dates);
    forall e | e in SortedDates(dates)
      ensures UniqueKeys(e.1) && KeysSorted(e.1)
    {
      assert e in multiset(each);
      var i :| 0 <= i < |each| && each[i] == e;
      assert dates[i] in dates;
      SortByKeyGet(dates[i].1, "");
      SortByKeySorted(dates[i].1);
    }
  }

  /** Sorting changes no lookup: the same applications, each with the same stamps under the
      same date keys. */
  lemma ResortedGet(st: State, appId: string, date: string)
    requires WellKeyed(st)
    ensures Get(Resorted(st).dateUpdateTime, appId).Some? <==> Get(st.dateUpdateTime, appId).Some?
    ensures Get(st.dateUpdateTime, appId).Some? ==>
              Get(Get(Resorted(st).dateUpdateTime, appId).value, date) ==
              Get(Get(st.dateUpdateTime, appId).value, date)
  {
    var each := SortEach(st.dateUpdateTime);
    SameKeysUnique(st.dateUpdateTime, each);
    SortByKeyGet(each, appId);
    match Get(st.dateUpdateTime, appId)
    case None =>
    case Some(entries) =>
      var i :| 0 <= i < |st.dateUpdateTime| && st.dateUpdateTime[i] == (appId, entries);
      GetAt(each, i);
      assert st.dateUpdateTime[i] in st.dateUpdateTime;
      SortByKeyGet(entries, date);
  }

  /** Below the top level too, every object `save` writes has its keys in order: the
      applications, and the dates of each. */
  lemma SavedObjectsSorted(st: State)
    requires WellKeyed(st)
    ensures var apps := AppsJson(SortedDates(st.dateUpdateTime));
      && KeysSorted(apps)
      && forall i :: 0 <= i < |apps| ==> apps[i].1.JObject? && KeysSorted(apps[i].1.pairs)
  {
    var sorted := SortedDates(st.dateUpdateTime);
    var apps := AppsJson(sorted);
    ResortedWellKeyed(st);
    SameKeysSorted(sorted, apps);
    forall i | 0 <= i < |apps|
      ensures apps[i].1.JObject? && KeysSorted(apps[i].1.pairs)
    {
      assert sorted[i] in sorted;
      SameKeysSorted(sorted[i].1, StampsJson(sorted[i].1));
    }
  }

  lemma MergeSaved(st: State)
    requires WellKeyed(st)
    ensures Merge(SaveLegacy(st).pairs) == Ok(Resorted(st))
  {
    var top := SaveLegacy(st).pairs;
    var sorted := Resorted(st).dateUpdateTime;
    SavedMembers(st);
    ResortedWellKeyed(st);
    var apps := AppsJson(sorted);
    SameKeysUnique(sorted, apps);
    FromPairsUnique(apps);
    DecodeAppsJson(sorted);
    assert DatesOf(Get(top, "date_update_time")) == Ok(sorted);
    assert Resorted(st) == State(st.dbScheme, st.lastUpdateTime, sorted);
  }

  /** Saving a state and loading the file gives the state back with its dictionaries in
      key order. */
  lemma LoadSave(st: State)
    requires WellKeyed(st)
    ensures LoadLegacy(Parsed(SaveLegacy(st))) == Ok(Resorted(st))
  {
    var top := SaveLegacy(st).pairs;
    SavedMembers(st);
    FromPairsUnique(top);
    MergeSaved(st);
    assert LoadLegacy(Parsed(JObject(top))) == Merge(FromPairs(top));
  }

  /** What a save and a load give back answers every lookup as the saved state does: the
      same scheme, finish stamp, applications, and stamp under each date key. */
  lemma LoadSaveLookups(st: State, appId: string, date: string)
    requires WellKeyed(st)
    ensures LoadLegacy(Parsed(SaveLegacy(st))).Ok?
    ensures var back := LoadLegacy(Parsed(SaveLegacy(st))).value;
      && back.dbScheme == st.dbScheme && back.lastUpdateTime == st.lastUpdateTime
      && (Get(back.dateUpdateTime, appId).Some? <==> Get(st.dateUpdateTime, appId).Some?)
      && (Get(st.dateUpdateTime, appId).Some? ==>
            Get(Get(back.dateUpdateTime, appId).value, date) == Get(Get(st.dateUpdateTime, appId).value, date))
  {
    LoadSave(st);
    ResortedGet(st, appId, date);
  }
}
