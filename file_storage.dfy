/** `FileStateStorage` of `state/file_storage.py`: a `State` of `state/state.py` is saved as a
    JSON object (`sort_keys=True`) and loaded back. Datetimes are written as POSIX timestamps
    and dates as ordinals. A missing file or a file that is not JSON loads as `State()`;
    any other fault while decoding (a missing key, a value Python cannot iterate, index or
    convert, a timestamp whose year falls outside 1 to 9999) is an error that `load` does
    not catch. A boolean is read where a number is, as the integer it is in Python. */
module FileStorage {
  import opened Common
  import opened Calendar
  import opened Dicts
  import opened JsonValues
  import opened StateRecords

  // ----- save -----

  /** A datetime attribute: its timestamp, or `null` for `None`. */
  function StampJson(t: Option<Instant>): Json
  {
    match t
    case None => JNull
    case Some(x) => JNum(ToTimestamp(x))
  }

  /** The dictionary of an initialization state, its keys in `sort_keys` order. */
  function InitJson(i: InitializationState): (j: Json)
    ensures j.JObject? && KeysSorted(j.pairs)
  {
    InitKeysOrdered();
    JObject([("date_start", Int(i.dateStart)), ("date_until", Int(i.dateUntil)),
             ("started_at", JNum(ToTimestamp(i.startedAt)))])
  }

  /** The dictionary of one application, its keys in `sort_keys` order;
      `initialization_state` is left out when `None`. */
  function AppJson(a: AppIdState): (j: Json)
    ensures j.JObject? && KeysSorted(j.pairs)
  {
    AppKeysOrdered();
    match a.initializationState
    case None =>
      JObject([("app_id", JString(a.appId)), ("inited", JBool(a.inited)),
               ("updated_until", StampJson(a.updatedUntil))])
    case Some(i) =>
      JObject([("app_id", JString(a.appId)), ("inited", JBool(a.inited)),
               ("initialization_state", InitJson(i)),
               ("updated_until", StampJson(a.updatedUntil))])
  }

  function AppsJson(apps: seq<AppIdState>): (items: seq<Json>)
    ensures |items| == |apps|
    ensures forall i :: 0 <= i < |apps| ==> items[i] == AppJson(apps[i])
  {
    if apps == [] then [] else AppsJson(apps[..|apps| - 1]) + [AppJson(apps[|apps| - 1])]
  }

  /** What `save` writes: an object whose keys are in `sort_keys` order. */
  function StateJson(st: State): (j: Json)
    ensures j.JObject? && KeysSorted(j.pairs)
  {
    StateKeysOrdered();
    JObject([("app_id_states", JArray(AppsJson(st.appIdStates))),
             ("last_update_time", StampJson(st.lastUpdateTime))])
  }

  lemma InitKeysOrdered()
    ensures TextLe("date_start", "date_until") && TextLe("date_until", "started_at")
    ensures TextLe("date_start", "started_at")
  {
    assert "date_start"[..5] == "date_until"[..5] == "date_";
    assert TextLe("start", "until");
    TextLeTransitive("date_start", "date_until", "started_at");
  }

  lemma AppKeysOrdered()
    ensures TextLe("app_id", "inited") && TextLe("inited", "initialization_state")
    ensures TextLe("initialization_state", "updated_until")
    ensures TextLe("app_id", "initialization_state") && TextLe("app_id", "updated_until")
    ensures TextLe("inited", "updated_until")
  {
    assert TextLe("ted", "tialization_state");
    assert TextLe("inited", "initialization_state");
    TextLeTransitive("app_id", "inited", "initialization_state");
    TextLeTransitive("inited", "initialization_state", "updated_until");
    TextLeTransitive("app_id", "inited", "updated_until");
  }

  lemma StateKeysOrdered()
    ensures TextLe("app_id_states", "last_update_time")
  {
  }

  // ----- load -----

  /** `True` and `False` are the integers 1 and 0 to Python's arithmetic. */
  function BoolNumber(b: bool): real
  {
    if b then 1.0 else 0.0
  }

  /** `datetime.utcfromtimestamp(ts)`, or the error it raises. */
  function DecodeTimestamp(ts: Timestamp): (r: Result<Option<Instant>, string>)
    ensures r.Ok? <==> InDatetimeRange(FromTimestamp(ts))
    ensures r.Ok? ==> r.value == Some(FromTimestamp(ts))
  {
    match UtcFromTimestamp(ts)
    case None => Err("ValueError: year is out of range")
    case Some(t) => Ok(Some(t))
  }

  /** `datetime.utcfromtimestamp(v)` for a value that may be `null`. */
  function DecodeStamp(v: Json): (r: Result<Option<Instant>, string>)
    ensures r.Ok? ==> StampValid(r.value)
  {
    match v
    case JNull => Ok(None)
    case JNum(n) => DecodeTimestamp(n)
    case JBool(b) => DecodeTimestamp(BoolNumber(b))
    case _ => Err("TypeError: a timestamp is not a number")
  }

  /** `date.fromordinal(v)` */
  function DecodeOrdinal(v: Option<Json>): (r: Result<Date, string>)
    ensures r.Ok? ==> ValidDate(r.value)
  {
    match v
    case None => Err("KeyError")
    case Some(JNum(n)) =>
      if IsInteger(n) && ValidDate(n.Floor) then Ok(n.Floor) else Err("ValueError: not an ordinal")
    case Some(JBool(b)) => if b then Ok(1) else Err("ValueError: ordinal must be >= 1")
    case Some(_) => Err("TypeError: an ordinal is not an integer")
  }

  /** `InitializationSate` from the values of `started_at`, `date_start` and `date_until`. */
  function DecodeInitFields(startedAt: Option<Json>, dateStart: Option<Json>, dateUntil: Option<Json>)
    : (r: Result<Option<InitializationState>, string>)
    ensures r.Ok? ==> r.value.Some? && InitValid(r.value.value)
  {
    if startedAt.None? then Err("KeyError: started_at")
    else
      var s := DecodeStamp(startedAt.value);
      var ds := DecodeOrdinal(dateStart);
      var du := DecodeOrdinal(dateUntil);
      if s.Err? then Err(s.error)
      else if s.value.None? then Err("started_at is null")
      else if ds.Err? then Err(ds.error)
      else if du.Err? then Err(du.error)
      else Ok(Some(NewInitializationState(s.value.value, ds.value, du.value)))
  }

  /** `app_id_dict.get('initialization_state')` and the record built from it. */
  function DecodeInit(v: Option<Json>): (r: Result<Option<InitializationState>, string>)
    ensures r.Ok? && r.value.Some? ==> InitValid(r.value.value)
  {
    match v
    case None => Ok(None)
    case Some(JNull) => Ok(None)
    case Some(JObject(p)) =>
      DecodeInitFields(Member(p, "started_at"), Member(p, "date_start"), Member(p, "date_until"))
    case Some(_) => Err("initialization_state is not an object")
  }

  /** `AppIdState(app_dict['app_id'], app_dict['inited'], i_state, updated_until)` from the
      decoded initialization state and the values of the other three keys. */
  function DecodeAppFields(init: Result<Option<InitializationState>, string>, updatedUntil: Option<Json>,
                           appId: Option<Json>, inited: Option<Json>): (r: Result<AppIdState, string>)
    ensures r.Ok? ==> init.Ok? && r.value.initializationState == init.value && StampValid(r.value.updatedUntil)
  {
    if init.Err? then Err(init.error)
    else if updatedUntil.None? then Err("KeyError: updated_until")
    else
      var u := DecodeStamp(updatedUntil.value);
      if u.Err? then Err(u.error)
      else if !(appId.Some? && appId.value.JString?) then Err("app_id missing or not a string")
      else if !(inited.Some? && inited.value.JBool?) then Err("inited missing or not a boolean")
      else Ok(NewAppIdState(appId.value.s, Some(inited.value.b), init.value, u.value))
  }

  /** One application dictionary: `initialization_state`, then `updated_until`, then
      `app_id` and `inited`, which must be present. */
  function DecodeApp(v: Json): (r: Result<AppIdState, string>)
    ensures r.Ok? ==> AppDatesValid(r.value)
  {
    match v
    case JObject(p) =>
      DecodeAppFields(DecodeInit(Member(p, "initialization_state")), Member(p, "updated_until"),
                      Member(p, "app_id"), Member(p, "inited"))
    case _ => Err("an application state is not an object")
  }

  /** The application list, decoded one item after the other; the first fault wins. */
  function DecodeApps(items: seq<Json>): (r: Result<seq<AppIdState>, string>)
    ensures r.Ok? ==> |r.value| == |items|
    ensures r.Ok? ==> forall i :: 0 <= i < |r.value| ==> AppDatesValid(r.value[i])
  {
    if items == [] then Ok([])
    else
      match DecodeApps(items[..|items| - 1])
      case Err(e) => Err(e)
      case Ok(prefix) =>
        match DecodeApp(items[|items| - 1])
        case Err(e) => Err(e)
        case Ok(a) => AllDatesValidSnoc(prefix, a); Ok(prefix + [a])
  }

  lemma AllDatesValidSnoc(prefix: seq<AppIdState>, a: AppIdState)
    requires forall i :: 0 <= i < |prefix| ==> AppDatesValid(prefix[i])
    requires AppDatesValid(a)
    ensures forall i :: 0 <= i < |prefix + [a]| ==> AppDatesValid((prefix + [a])[i])
  {
  }

  /** `for app_id_dict in state_dict['app_id_states']`: the items of a list; an empty
      object or string gives no item at all, while a non-empty one gives keys or characters,
      on which `.get` fails; any other value cannot be iterated. */
  function AppItems(list: Json): (r: Result<seq<Json>, string>)
    ensures r.Ok? <==> list.JArray? || list == JObject([]) || list == JString([])
    ensures list.JArray? ==> r == Ok(list.items)
  {
    match list
    case JArray(items) => Ok(items)
    case JObject(pairs) =>
      if pairs == [] then Ok([]) else Err("AttributeError: a key of app_id_states has no get")
    case JString(s) =>
      if s == [] then Ok([]) else Err("AttributeError: a character of app_id_states has no get")
    case _ => Err("TypeError: app_id_states is not iterable")
  }

  /** The state from the values of `app_id_states` and `last_update_time`. */
  function DecodeStateFields(list: Option<Json>, last: Option<Json>): (r: Result<State, string>)
    ensures r.Ok? ==> ValidDates(r.value)
  {
    if list.None? then Err("KeyError: app_id_states")
    else
      var items := AppItems(list.value);
      var apps := if items.Err? then Err(items.error) else DecodeApps(items.value);
      if apps.Err? then Err(apps.error)
      else if last.None? then Err("KeyError: last_update_time")
      else
        var l := DecodeStamp(last.value);
        if l.Err? then Err(l.error)
        else Ok(NewState(l.value, Some(apps.value)))
  }

  /** What `load` returns for the content of the file: a fresh state for a missing or
      non-JSON file, and otherwise a state whose every date and datetime Python can hold. */
  function LoadState(content: FileContent): (r: Result<State, string>)
    ensures content.NoFile? || content.NotJson? ==> r == Ok(State(None, []))
    ensures r.Ok? ==> ValidDates(r.value)
  {
    match content
    case NoFile => Ok(NewState(None, None))
    case NotJson => Ok(NewState(None, None))
    case Parsed(JObject(p)) => DecodeStateFields(Member(p, "app_id_states"), Member(p, "last_update_time"))
    case Parsed(_) => Err("the file does not hold an object")
  }

  // ----- the methods, which walk the lists -----

  /** `save`: the object written to the file. */
  method Save(st: State) returns (written: Json)
    ensures written == StateJson(st)
    ensures LoadState(Parsed(written)) == Ok(st) <== ValidDates(st)
  {
    var appIdDicts: seq<Json> := [];
    var i := 0;
    while i < |st.appIdStates|
      invariant 0 <= i <= |st.appIdStates|
      invariant appIdDicts == AppsJson(st.appIdStates[..i])
    {
      var appState := st.appIdStates[i];
      var entries := [("app_id", JString(appState.appId)), ("inited", JBool(appState.inited))];
      if appState.initializationState.Some? {
        entries := entries + [("initialization_state", InitJson(appState.initializationState.value))];
      }
      entries := entries + [("updated_until", StampJson(appState.updatedUntil))];
      assert JObject(entries) == AppJson(appState);
      assert st.appIdStates[..i + 1] == st.appIdStates[..i] + [appState];
      appIdDicts := appIdDicts + [JObject(entries)];
      i := i + 1;
    }
    assert st.appIdStates[..i] == st.appIdStates;
    written := JObject([("app_id_states", JArray(appIdDicts)),
                        ("last_update_time", StampJson(st.lastUpdateTime))]);
    if ValidDates(st) {
      LoadSave(st);
    }
  }

  /** `load`: a fresh `State` for a missing or non-JSON file, else the decoded state. */
  method Load(content: FileContent) returns (r: Result<State, string>)
    ensures r == LoadState(content)
    ensures content.NoFile? || content.NotJson? ==> r == Ok(State(None, []))
  {
    if content.NoFile? || content.NotJson? {
      return Ok(NewState(None, None));
    }
    if !content.value.JObject? {
      return Err("the file does not hold an object");
    }
    var p := content.value.pairs;
    var list := Member(p, "app_id_states");
    var l := Member(p, "last_update_time");
    assert LoadState(content) == DecodeStateFields(list, l);
    if list.None? {
      return Err("KeyError: app_id_states");
    }
    var listed := AppItems(list.value);
    if listed.Err? {
      return Err(listed.error);
    }
    var items := listed.value;
    var appIdStates: seq<AppIdState> := [];
    var i := 0;
    while i < |items|
      invariant 0 <= i <= |items|
      invariant DecodeApps(items[..i]) == Ok(appIdStates)
    {
      DecodeAppsSnoc(items, i);
      var a := DecodeApp(items[i]);
      if a.Err? {
        AppsFaultStays(items, i + 1);
        return Err(a.error);
      }
      appIdStates := appIdStates + [a.value];
      i := i + 1;
    }
    assert items[..i] == items;
    assert DecodeApps(items) == Ok(appIdStates);
    if l.None? {
      return Err("KeyError: last_update_time");
    }
    var last := DecodeStamp(l.value);
    if last.Err? {
      return Err(last.error);
    }
    r := Ok(NewState(last.value, Some(appIdStates)));
  }

  lemma DecodeAppsSnoc(items: seq<Json>, i: nat)
    requires i < |items|
    ensures DecodeApps(items[..i + 1]) ==
              match DecodeApps(items[..i])
              case Err(e) => Err(e)
              case Ok(prefix) =>
                match DecodeApp(items[i])
                case Err(e) => Err(e)
                case Ok(a) => Ok(prefix + [a])
  {
    assert items[..i + 1][..i] == items[..i];
  }

  /** A fault in the first `k` items is the fault of the whole list. */
  lemma {:induction false} AppsFaultStays(items: seq<Json>, k: nat)
    requires k <= |items| && DecodeApps(items[..k]).Err?
    ensures DecodeApps(items) == DecodeApps(items[..k])
    decreases |items| - k
  {
    if k < |items| {
      assert items[..k + 1][..k] == items[..k];
      AppsFaultStays(items, k + 1);
    } else {
      assert items[..k] == items;
    }
  }

  // ----- the round trip -----

  /** Every date and datetime the state holds is one Python can hold. */
  predicate ValidDates(st: State)
  {
    && StampValid(st.lastUpdateTime)
    && forall i :: 0 <= i < |st.appIdStates| ==> AppDatesValid(st.appIdStates[i])
  }

  predicate StampValid(t: Option<Instant>)
  {
    t.Some? ==> InDatetimeRange(t.value)
  }

  /** The dates and datetimes of one application are valid. */
  predicate AppDatesValid(a: AppIdState)
  {
    && StampValid(a.updatedUntil)
    && (a.initializationState.Some? ==> InitValid(a.initializationState.value))
  }

  predicate InitValid(i: InitializationState)
  {
    InDatetimeRange(i.startedAt) && ValidDate(i.dateStart) && ValidDate(i.dateUntil)
  }

  lemma StampRoundTrip(t: Option<Instant>)
    requires StampValid(t)
    ensures DecodeStamp(StampJson(t)) == Ok(t)
  {
    if t.Some? {
      UtcTimestampRoundTrip(t.value);
    }
  }

  lemma OrdinalRoundTrip(d: Date)
    requires ValidDate(d)
    ensures DecodeOrdinal(Some(Int(d))) == Ok(d)
  {
  }

  lemma InitRoundTrip(i: InitializationState)
    requires InitValid(i)
    ensures DecodeInit(Some(InitJson(i))) == Ok(Some(i))
  {
    var startJ, untilJ, atJ := Int(i.dateStart), Int(i.dateUntil), JNum(ToTimestamp(i.startedAt));
    InitDecodesAs(startJ, untilJ, atJ);
    InitFromFields(i, atJ, startJ, untilJ);
  }

  /** An initialization dictionary is read through its three members. */
  lemma InitDecodesAs(startJ: Json, untilJ: Json, atJ: Json)
    ensures DecodeInit(Some(JObject([("date_start", startJ), ("date_until", untilJ), ("started_at", atJ)]))) ==
              DecodeInitFields(Some(atJ), Some(startJ), Some(untilJ))
  {
    InitKeysDiffer();
    Members3("date_start", "date_until", "started_at", startJ, untilJ, atJ);
  }

  /** The keys of an initialization dictionary differ from each other. */
  lemma InitKeysDiffer()
    ensures "date_start" != "date_until" && "date_start" != "started_at" && "date_until" != "started_at"
  {
    assert "date_start"[5] == 's' && "date_until"[5] == 'u' && "started_at"[0] == 's';
  }

  /** The initialization state from the values written for it. */
  lemma InitFromFields(i: InitializationState, atJ: Json, startJ: Json, untilJ: Json)
    requires InitValid(i)
    requires atJ == JNum(ToTimestamp(i.startedAt)) && startJ == Int(i.dateStart) && untilJ == Int(i.dateUntil)
    ensures DecodeInitFields(Some(atJ), Some(startJ), Some(untilJ)) == Ok(Some(i))
  {
    StampRoundTrip(Some(i.startedAt));
    OrdinalRoundTrip(i.dateStart);
    OrdinalRoundTrip(i.dateUntil);
  }

  /** The keys of an application dictionary differ from each other. */
  lemma AppKeysDiffer()
    ensures "app_id" != "inited" && "app_id" != "initialization_state" && "app_id" != "updated_until"
    ensures "inited" != "initialization_state" && "inited" != "updated_until"
    ensures "initialization_state" != "updated_until"
  {
    assert "app_id"[0] == 'a' && "inited"[0] == 'i' && "updated_until"[0] == 'u';
    assert "initialization_state"[0] == 'i' && "initialization_state"[4] == 'i' && "inited"[4] == 'e';
  }

  /** The members of an application dictionary with an initialization state. */
  lemma MembersWithInit(idJ: Json, initedJ: Json, initJ: Json, untilJ: Json)
    ensures var p := [("app_id", idJ), ("inited", initedJ), ("initialization_state", initJ), ("updated_until", untilJ)];
      && Member(p, "app_id") == Some(idJ) && Member(p, "inited") == Some(initedJ)
      && Member(p, "initialization_state") == Some(initJ) && Member(p, "updated_until") == Some(untilJ)
  {
    AppKeysDiffer();
    Members4("app_id", "inited", "initialization_state", "updated_until", idJ, initedJ, initJ, untilJ);
  }

  /** The members of an application dictionary without an initialization state. */
  lemma MembersWithoutInit(idJ: Json, initedJ: Json, untilJ: Json)
    ensures var p := [("app_id", idJ), ("inited", initedJ), ("updated_until", untilJ)];
      && Member(p, "app_id") == Some(idJ) && Member(p, "inited") == Some(initedJ)
      && Member(p, "initialization_state") == None && Member(p, "updated_until") == Some(untilJ)
  {
    AppKeysDiffer();
    Members3("app_id", "inited", "updated_until", idJ, initedJ, untilJ);
    Absent3("app_id", "inited", "updated_until", idJ, initedJ, untilJ, "initialization_state");
  }

  /** The members of an application dictionary read back as written. */
  lemma AppMembers(a: AppIdState)
    ensures var p := AppJson(a).pairs;
      && Member(p, "app_id") == Some(JString(a.appId))
      && Member(p, "inited") == Some(JBool(a.inited))
      && Member(p, "updated_until") == Some(StampJson(a.updatedUntil))
      && Member(p, "initialization_state") ==
           (if a.initializationState.None? then None else Some(InitJson(a.initializationState.value)))
  {
    var idJ, initedJ, untilJ := JString(a.appId), JBool(a.inited), StampJson(a.updatedUntil);
    if a.initializationState.Some? {
      var initJ := InitJson(a.initializationState.value);
      assert AppJson(a).pairs == [("app_id", idJ), ("inited", initedJ), ("initialization_state", initJ), ("updated_until", untilJ)];
      MembersWithInit(idJ, initedJ, initJ, untilJ);
    } else {
      assert AppJson(a).pairs == [("app_id", idJ), ("inited", initedJ), ("updated_until", untilJ)];
      MembersWithoutInit(idJ, initedJ, untilJ);
    }
  }

  /** Decoding an application dictionary reads back the values written. */
  lemma AppDecodesAs(a: AppIdState)
    ensures DecodeApp(AppJson(a)) ==
              DecodeAppFields(DecodeInit(if a.initializationState.None? then None
                                         else Some(InitJson(a.initializationState.value))),
                              Some(StampJson(a.updatedUntil)), Some(JString(a.appId)), Some(JBool(a.inited)))
  {
    var p := AppJson(a).pairs;
    var m0, m1, m2, m3 := Member(p, "initialization_state"), Member(p, "updated_until"), Member(p, "app_id"), Member(p, "inited");
    assert DecodeApp(AppJson(a)) == DecodeAppFields(DecodeInit(m0), m1, m2, m3);
    AppMembers(a);
  }

  lemma AppRoundTrip(a: AppIdState)
    requires AppDatesValid(a)
    ensures DecodeApp(AppJson(a)) == Ok(a)
  {
    AppDecodesAs(a);
    var initJ := if a.initializationState.None? then None else Some(InitJson(a.initializationState.value));
    assert DecodeInit(initJ) == Ok(a.initializationState) by {
      if a.initializationState.Some? {
        InitRoundTrip(a.initializationState.value);
      }
    }
    AppFromFields(a, DecodeInit(initJ));
  }

  /** The application state from the values written for it. */
  lemma AppFromFields(a: AppIdState, init: Result<Option<InitializationState>, string>)
    requires init == Ok(a.initializationState) && StampValid(a.updatedUntil)
    ensures DecodeAppFields(init, Some(StampJson(a.updatedUntil)), Some(JString(a.appId)), Some(JBool(a.inited))) == Ok(a)
  {
    StampRoundTrip(a.updatedUntil);
  }

  lemma {:induction false} AppsRoundTrip(apps: seq<AppIdState>)
    requires forall i :: 0 <= i < |apps| ==> AppDatesValid(apps[i])
    ensures DecodeApps(AppsJson(apps)) == Ok(apps)
    decreases |apps|
  {
    if apps != [] {
      var n := |apps| - 1;
      var items := AppsJson(apps);
      assert DecodeApps(items[..n]) == Ok(apps[..n]) by {
        assert items[..n] == AppsJson(apps[..n]);
        AppsRoundTrip(apps[..n]);
      }
      assert DecodeApp(items[n]) == Ok(apps[n]) by {
        AppRoundTrip(apps[n]);
      }
      DecodeAppsSnoc(items, n);
      FrontLast(items);
      FrontLast(apps);
    }
  }

  /** Saving a state and loading the file gives the same state: the applications in the same
      order with the same `app_id`, `inited`, `initialization_state` and `updated_until`,
      and the same `last_update_time`. */
  lemma LoadSave(st: State)
    requires ValidDates(st)
    ensures LoadState(Parsed(StateJson(st))) == Ok(st)
  {
    var listJ, lastJ := JArray(AppsJson(st.appIdStates)), StampJson(st.lastUpdateTime);
    LoadDecodesAs(listJ, lastJ);
    AppsRoundTrip(st.appIdStates);
    StampRoundTrip(st.lastUpdateTime);
    StateFromFields(st, AppsJson(st.appIdStates), lastJ);
  }

  /** The saved object is read through its two members. */
  lemma LoadDecodesAs(listJ: Json, lastJ: Json)
    ensures LoadState(Parsed(JObject([("app_id_states", listJ), ("last_update_time", lastJ)]))) ==
              DecodeStateFields(Some(listJ), Some(lastJ))
  {
    assert "app_id_states"[0] == 'a' && "last_update_time"[0] == 'l';
    Members2("app_id_states", "last_update_time", listJ, lastJ);
  }

  /** A state that loads is saved so that it loads again unchanged. */
  lemma SaveLoaded(content: FileContent)
    requires LoadState(content).Ok?
    ensures LoadState(Parsed(StateJson(LoadState(content).value))) == LoadState(content)
  {
    LoadSave(LoadState(content).value);
  }

  /** The state from the values written for it. */
  lemma StateFromFields(st: State, items: seq<Json>, lastJ: Json)
    requires DecodeApps(items) == Ok(st.appIdStates) && DecodeStamp(lastJ) == Ok(st.lastUpdateTime)
    ensures DecodeStateFields(Some(JArray(items)), Some(lastJ)) == Ok(st)
  {
  }
}
