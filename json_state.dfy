/** The JSON form of the scheduler's state, `state/json_serialization.py`: datetimes are
    written as whole unix seconds and dates as `YYYY-MM-DD` keys; reading back, every JSON
    object that holds `app_id_states` becomes a `State` and every other object is left as
    it is. Faults (a missing key, a malformed date, a value of the wrong kind) are errors. */
module JsonState {
  import opened Common
  import opened Calendar
  import opened Dicts
  import opened JsonValues
  import opened Scheduling

  // ----- encoding -----

  /** `_to_unix_time`, as the JSON integer the encoder writes. */
  function UnixJson(t: Instant): (j: Json)
    ensures j.JNum? && IsInteger(j.n)
  {
    Int(ToUnixSeconds(t))
  }

  /** Every key of `date_updates` is a date Python can hold and has a value, which is a
      datetime Python can hold. */
  predicate Encodable(a: AppIdState)
  {
    forall i :: 0 <= i < |a.order| ==>
      ValidDate(a.order[i]) && a.order[i] in a.updates && InDatetimeRange(a.updates[a.order[i]])
  }

  /** One item of `date_updates` as written: the date as `YYYY-MM-DD`, the datetime as unix
      seconds. */
  function DateItem(d: Date, t: Instant): (string, Json)
    requires ValidDate(d)
  {
    (FormatDate(d), UnixJson(t))
  }

  /** The `date_updates` dictionary the encoder writes: its items in order, each date as
      `YYYY-MM-DD` and each datetime as unix seconds. */
  function DatePairs(order: seq<Date>, updates: map<Date, Instant>): (pairs: seq<(string, Json)>)
    requires forall i :: 0 <= i < |order| ==> ValidDate(order[i]) && order[i] in updates
    ensures |pairs| == |order|
    ensures forall i :: 0 <= i < |order| ==> pairs[i] == DateItem(order[i], updates[order[i]])
  {
    seq(|order|, i requires 0 <= i < |order| => DateItem(order[i], updates[order[i]]))
  }

  /** `StateJSONEncoder.default` of an `AppIdState`. */
  function AppJson(a: AppIdState): Json
    requires Encodable(a)
  {
    JObject([("app_id", JString(a.appId)), ("date_updates", JObject(DatePairs(a.order, a.updates)))])
  }

  function AppsJson(apps: seq<AppIdState>): (items: seq<Json>)
    requires forall i :: 0 <= i < |apps| ==> Encodable(apps[i])
    ensures |items| == |apps|
  {
    if apps == [] then [] else AppsJson(apps[..|apps| - 1]) + [AppJson(apps[|apps| - 1])]
  }

  /** `last_update_time` as written: `null` when missing. */
  function LastJson(last: Option<Instant>): Json
  {
    if last.None? then JNull else UnixJson(last.value)
  }

  /** `StateJSONEncoder.default` of a `State`; a missing `last_update_time` is `null`. */
  function StateJson(st: State): (j: Json)
    requires forall i :: 0 <= i < |st.apps| ==> Encodable(st.apps[i])
    ensures j.JObject?
    ensures Member(j.pairs, "last_update_time") == Some(LastJson(st.lastUpdateTime))
    ensures Member(j.pairs, "app_id_states") == Some(JArray(AppsJson(st.apps)))
  {
    StateMembers(LastJson(st.lastUpdateTime), JArray(AppsJson(st.apps)));
    JObject([("last_update_time", LastJson(st.lastUpdateTime)),
             ("app_id_states", JArray(AppsJson(st.apps)))])
  }

  // ----- decoding -----

  /** `_from_unix_time(u)`: `datetime.utcfromtimestamp`, which takes any number whose
      instant falls in years 1 to 9999, and a boolean as the integer it is in Python. */
  function DecodeUnix(v: Json): Result<Instant, string>
  {
    match v
    case JNum(n) =>
      (match UtcFromTimestamp(n)
       case None => Err("ValueError: year is out of range")
       case Some(t) => Ok(t))
    case JBool(b) => Ok(FromUnixSeconds(if b then 1 else 0))
    case _ => Err("TypeError: a timestamp is not a number")
  }

  /** One item of `_parse_date_updates`: the key parsed with `strptime`, then the value
      with `_from_unix_time`. */
  function DecodeDateItem(item: (string, Json)): Result<(Date, Instant), string>
  {
    match ParseDate(item.0)
    case None => Err("ValueError: a key is not a YYYY-MM-DD date")
    case Some(d) =>
      match DecodeUnix(item.1)
      case Err(e) => Err(e)
      case Ok(t) => Ok((d, t))
  }

  /** `date_updates[target_date] = update_dt` for each decoded item in turn, into a fresh
      dictionary: a date met twice keeps its first place and takes the last value. */
  function CollectUpdates(items: seq<(Date, Instant)>): (r: AppIdState)
    ensures WellFormed(r) && r.appId == ""
  {
    if items == [] then AppIdState("", [], map[])
    else
      var n := |items| - 1;
      SetUpdate(CollectUpdates(items[..n]), items[n].0, items[n].1)
  }

  /** `_parse_date_updates` over the items of the dictionary, in order; the first item that
      fails is the fault. The application id is filled in by the caller. */
  function DecodeDateUpdates(items: seq<(string, Json)>): Result<AppIdState, string>
  {
    match MapAll(DecodeDateItem, items)
    case Err(e) => Err(e)
    case Ok(decoded) => Ok(CollectUpdates(decoded))
  }

  /** `_parse_app_id_state`: `date_updates` first, then `app_id`. */
  function ParseAppIdState(v: Json): Result<AppIdState, string>
  {
    match v
    case JObject(p) => ParseAppFields(p)
    case _ => Err("TypeError: an application state is not a dictionary")
  }

  /** An application dictionary that itself holds `app_id_states` has already been turned
      into a `State` by the hook, and indexing that fails. */
  function ParseAppFields(p: seq<(string, Json)>): Result<AppIdState, string>
  {
    if Member(p, "app_id_states").Some? then Err("TypeError: a State is not subscriptable")
    else if Member(p, "date_updates").None? then Err("KeyError: date_updates")
    else AppFromMembers(Member(p, "date_updates").value, Member(p, "app_id"))
  }

  /** `AppIdState(json_object["app_id"], date_updates)` from the value of `date_updates` and
      that of `app_id`. */
  function AppFromMembers(dateUpdates: Json, appId: Option<Json>): Result<AppIdState, string>
  {
    if !dateUpdates.JObject? then Err("AttributeError: date_updates is not a dictionary")
    else
      var du := DecodeDateUpdates(FromPairs(dateUpdates.pairs));
      if du.Err? then Err(du.error)
      else if appId.None? then Err("KeyError: app_id")
      else if !appId.value.JString? then Err("app_id is not a string")
      else Ok(du.value.(appId := appId.value.s))
  }

  /** What iterating over the value of `app_id_states` gives to `map`: the items of a list;
      an empty dictionary or an empty string yields nothing; any other value fails. */
  function ParseAppList(v: Json): Result<seq<AppIdState>, string>
  {
    match v
    case JArray(items) => MapAll(ParseAppIdState, items)
    case JObject(p) => if p == [] then Ok([]) else Err("TypeError: a key is not a dictionary")
    case JString(s) => if s == [] then Ok([]) else Err("TypeError: a character is not a dictionary")
    case _ => Err("TypeError: app_id_states is not iterable")
  }

  /** The value of `last_update_time`: `null` is `None`, anything else unix time. */
  function DecodeLast(v: Json): Result<Option<Instant>, string>
  {
    if v == JNull then Ok(None)
    else
      match DecodeUnix(v)
      case Err(e) => Err(e)
      case Ok(t) => Ok(Some(t))
  }

  /** `_parse_state`: `last_update_time` must be present and may be `null`;
      `app_id_states` is optional. */
  function ParseState(p: seq<(string, Json)>): (r: Result<State, string>)
    ensures Member(p, "last_update_time").None? ==> r.Err?
    ensures r.Ok? && Member(p, "app_id_states").None? ==> r.value.apps == []
    ensures Member(p, "last_update_time") == Some(JNull) && Member(p, "app_id_states").None? ==>
              r == Ok(State(None, []))
  {
    StateFromMembers(Member(p, "last_update_time"), Member(p, "app_id_states"))
  }

  /** The state from the values of `last_update_time` and `app_id_states`. */
  function StateFromMembers(lastJ: Option<Json>, list: Option<Json>): Result<State, string>
  {
    if lastJ.None? then Err("KeyError: last_update_time")
    else
      var last := DecodeLast(lastJ.value);
      if last.Err? then Err(last.error)
      else if list.None? then Ok(State(last.value, []))
      else
        var apps := ParseAppList(list.value);
        if apps.Err? then Err(apps.error) else Ok(State(last.value, apps.value))
  }

  /** What the decoder's object hook returns for one JSON object. */
  datatype Hooked = PlainObject(pairs: seq<(string, Json)>) | StateObject(st: State)

  /** `_hook`: only an object holding `app_id_states` becomes a `State`; every other object
      is returned as it is. */
  function Hook(p: seq<(string, Json)>): (r: Result<Hooked, string>)
    ensures (r.Ok? && r.value.PlainObject?) <==> Member(p, "app_id_states").None?
    ensures r.Ok? && r.value.PlainObject? ==> r.value.pairs == p
    ensures r.Ok? && r.value.StateObject? <==> ParseState(p).Ok? && Member(p, "app_id_states").Some?
    ensures r.Ok? && r.value.StateObject? ==> r.value.st == ParseState(p).value
  {
    if Member(p, "app_id_states").Some? then
      match ParseState(p)
      case Err(e) => Err(e)
      case Ok(st) => Ok(StateObject(st))
    else Ok(PlainObject(p))
  }

  // ----- the round trip -----

  /** What survives the trip: every datetime cut to whole seconds. */
  function TruncatedApp(a: AppIdState): (r: AppIdState)
    ensures r.appId == a.appId && r.order == a.order && r.updates.Keys == a.updates.Keys
    ensures forall d :: d in r.updates ==> r.updates[d] == TruncateToSecond(a.updates[d])
  {
    a.(updates := map d | d in a.updates :: TruncateToSecond(a.updates[d]))
  }

  function TruncatedState(st: State): (r: State)
    ensures |r.apps| == |st.apps|
    ensures forall i :: 0 <= i < |st.apps| ==> r.apps[i] == TruncatedApp(st.apps[i])
  {
    State(if st.lastUpdateTime.None? then None else Some(TruncateToSecond(st.lastUpdateTime.value)),
          TruncatedApps(st.apps))
  }

  function TruncatedApps(apps: seq<AppIdState>): (r: seq<AppIdState>)
    ensures |r| == |apps| && forall i :: 0 <= i < |apps| ==> r[i] == TruncatedApp(apps[i])
  {
    seq(|apps|, i requires 0 <= i < |apps| => TruncatedApp(apps[i]))
  }

  /** Unix seconds read back as the datetime cut to whole seconds. */
  lemma UnixJsonRoundTrip(t: Instant)
    requires InDatetimeRange(t)
    ensures DecodeUnix(UnixJson(t)) == Ok(TruncateToSecond(t))
  {
    WholeSecondsTimestamp(ToUnixSeconds(t));
    UnixRoundTrip(t);
    assert InDatetimeRange(TruncateToSecond(t));
  }

  /** A missing `last_update_time` is written as `null` and read back as missing. */
  lemma LastRoundTrip(last: Option<Instant>)
    requires last.Some? ==> InDatetimeRange(last.value)
    ensures DecodeLast(LastJson(last)) ==
              Ok(if last.None? then None else Some(TruncateToSecond(last.value)))
  {
    if last.Some? {
      UnixJsonRoundTrip(last.value);
    }
  }

  /** The archived sentinel is a whole second, so it survives the trip unchanged. */
  lemma ArchivedSurvives(a: AppIdState, d: Date)
    requires IsArchived(a, d)
    ensures IsArchived(TruncatedApp(a), d)
  {
    ArchivedDateIsFar();
  }

  /** Distinct dates give distinct keys. */
  lemma DatePairsUnique(order: seq<Date>, updates: map<Date, Instant>)
    requires forall i :: 0 <= i < |order| ==> ValidDate(order[i]) && order[i] in updates
    requires forall i, j :: 0 <= i < j < |order| ==> order[i] != order[j]
    ensures UniqueKeys(DatePairs(order, updates))
  {
    var pairs := DatePairs(order, updates);
    forall i, j | 0 <= i < j < |pairs|
      ensures pairs[i].0 != pairs[j].0
    {
      if FormatDate(order[i]) == FormatDate(order[j]) {
        FormatDateInjective(order[i], order[j]);
      }
    }
  }

  /** One written item reads back as its date and its datetime cut to whole seconds. */
  lemma DateItemRoundTrip(d: Date, t: Instant)
    requires ValidDate(d) && InDatetimeRange(t)
    ensures DecodeDateItem(DateItem(d, t)) == Ok((d, TruncateToSecond(t)))
  {
    ParseFormatDate(d);
    UnixJsonRoundTrip(t);
  }

  /** The items the decoder collects from a written `date_updates`. */
  function TruncatedItems(order: seq<Date>, updates: map<Date, Instant>): (items: seq<(Date, Instant)>)
    requires forall i :: 0 <= i < |order| ==> order[i] in updates
    ensures |items| == |order|
    ensures forall i :: 0 <= i < |order| ==> items[i] == (order[i], TruncateToSecond(updates[order[i]]))
  {
    seq(|order|, i requires 0 <= i < |order| => (order[i], TruncateToSecond(updates[order[i]])))
  }

  /** Collecting items with distinct dates keeps the dates in order. */
  lemma {:induction false} CollectDistinct(order: seq<Date>, updates: map<Date, Instant>)
    requires forall i :: 0 <= i < |order| ==> order[i] in updates
    requires forall i, j :: 0 <= i < j < |order| ==> order[i] != order[j]
    ensures CollectUpdates(TruncatedItems(order, updates)) == AppIdState("", order, TruncatedOn(order, updates))
    decreases |order|
  {
    if order != [] {
      var n := |order| - 1;
      var init, d := order[..n], order[n];
      var items := TruncatedItems(order, updates);
      assert items[..n] == TruncatedItems(init, updates);
      CollectDistinct(init, updates);
      assert d !in init;
      assert init + [d] == order;
      TruncatedOnSnoc(init, d, updates);
      CollectSnoc(items);
    }
  }

  /** The datetimes of the listed dates, cut to whole seconds. */
  function TruncatedOn(order: seq<Date>, updates: map<Date, Instant>): (m: map<Date, Instant>)
    requires forall i :: 0 <= i < |order| ==> order[i] in updates
    ensures forall d :: d in m <==> d in order
    ensures forall d :: d in m ==> m[d] == TruncateToSecond(updates[d])
  {
    map d | d in order :: TruncateToSecond(updates[d])
  }

  lemma TruncatedOnSnoc(init: seq<Date>, d: Date, updates: map<Date, Instant>)
    requires forall i :: 0 <= i < |init| ==> init[i] in updates
    requires d in updates
    ensures TruncatedOn(init, updates)[d := TruncateToSecond(updates[d])] == TruncatedOn(init + [d], updates)
  {
  }

  lemma CollectSnoc(items: seq<(Date, Instant)>)
    requires items != []
    ensures CollectUpdates(items) ==
              SetUpdate(CollectUpdates(items[..|items| - 1]), items[|items| - 1].0, items[|items| - 1].1)
  {
  }

  /** Decoding the written `date_updates` gives back the dates in their order, each with its
      datetime cut to whole seconds. */
  lemma DateUpdatesRoundTrip(order: seq<Date>, updates: map<Date, Instant>)
    requires forall i :: 0 <= i < |order| ==>
      ValidDate(order[i]) && order[i] in updates && InDatetimeRange(updates[order[i]])
    requires forall i, j :: 0 <= i < j < |order| ==> order[i] != order[j]
    ensures DecodeDateUpdates(DatePairs(order, updates)) ==
              Ok(AppIdState("", order, TruncatedOn(order, updates)))
  {
    var pairs := DatePairs(order, updates);
    var items := TruncatedItems(order, updates);
    forall i | 0 <= i < |order|
      ensures DecodeDateItem(pairs[i]) == Ok(items[i])
    {
      DateItemRoundTrip(order[i], updates[order[i]]);
    }
    MapAllOk(DecodeDateItem, pairs, items);
    CollectDistinct(order, updates);
  }

  /** The keys of the objects the encoder writes differ from each other. */
  lemma KeysDiffer()
    ensures "app_id" != "date_updates" && "app_id" != "app_id_states" && "date_updates" != "app_id_states"
    ensures "last_update_time" != "app_id_states"
  {
    assert |"app_id"| == 6 && |"app_id_states"| == 13;
    assert "app_id"[0] == 'a' && "date_updates"[0] == 'd' && "app_id_states"[0] == 'a';
    assert "last_update_time"[0] == 'l';
  }

  /** The members of an application object read back as written. */
  lemma AppMembers(idJ: Json, duJ: Json)
    ensures var p := [("app_id", idJ), ("date_updates", duJ)];
      Member(p, "app_id") == Some(idJ) && Member(p, "date_updates") == Some(duJ) &&
      Member(p, "app_id_states") == None
  {
    KeysDiffer();
    var p := [("app_id", idJ), ("date_updates", duJ)];
    assert UniqueKeys(p);
    MemberAt(p, 0);
    MemberAt(p, 1);
    MemberAbsent(p, "app_id_states");
  }

  /** The members of a state object read back as written. */
  lemma StateMembers(lastJ: Json, listJ: Json)
    ensures var p := [("last_update_time", lastJ), ("app_id_states", listJ)];
      Member(p, "last_update_time") == Some(lastJ) && Member(p, "app_id_states") == Some(listJ)
  {
    KeysDiffer();
    var p := [("last_update_time", lastJ), ("app_id_states", listJ)];
    assert UniqueKeys(p);
    MemberAt(p, 0);
    MemberAt(p, 1);
  }

  /** An application object is read through its two members. */
  lemma AppParsesAs(a: AppIdState)
    requires Encodable(a)
    ensures ParseAppIdState(AppJson(a)) ==
              AppFromMembers(JObject(DatePairs(a.order, a.updates)), Some(JString(a.appId)))
  {
    AppMembers(JString(a.appId), JObject(DatePairs(a.order, a.updates)));
  }

  /** The dates collected back, with their truncated datetimes, are the truncated state. */
  lemma TruncatedByOrder(a: AppIdState)
    requires WellFormed(a) && Encodable(a)
    ensures AppIdState(a.appId, a.order, TruncatedOn(a.order, a.updates)) == TruncatedApp(a)
  {
    var byOrder, byKey := TruncatedOn(a.order, a.updates), TruncatedApp(a).updates;
    forall d
      ensures d in byOrder <==> d in byKey
    {
      assert d in a.updates <==> d in a.order;
    }
  }

  /** The written `date_updates` and `app_id` give back the application state. */
  lemma AppMembersRoundTrip(a: AppIdState)
    requires WellFormed(a) && Encodable(a)
    ensures AppFromMembers(JObject(DatePairs(a.order, a.updates)), Some(JString(a.appId))) == Ok(TruncatedApp(a))
  {
    var dp := DatePairs(a.order, a.updates);
    var du := AppIdState("", a.order, TruncatedOn(a.order, a.updates));
    assert DecodeDateUpdates(FromPairs(dp)) == Ok(du) by {
      DatePairsUnique(a.order, a.updates);
      FromPairsUnique(dp);
      DateUpdatesRoundTrip(a.order, a.updates);
    }
    AppFromDecoded(dp, a.appId, du);
    TruncatedByOrder(a);
  }

  lemma AppFromDecoded(dp: seq<(string, Json)>, id: string, du: AppIdState)
    requires DecodeDateUpdates(FromPairs(dp)) == Ok(du)
    ensures AppFromMembers(JObject(dp), Some(JString(id))) == Ok(du.(appId := id))
  {
  }

  /** An application state reads back with its id, its dates in order and its datetimes cut
      to whole seconds. */
  lemma AppRoundTrip(a: AppIdState)
    requires WellFormed(a) && Encodable(a)
    ensures ParseAppIdState(AppJson(a)) == Ok(TruncatedApp(a))
  {
    AppParsesAs(a);
    AppMembersRoundTrip(a);
  }

  /** The applications read back in their order. */
  lemma AppsRoundTrip(apps: seq<AppIdState>)
    requires forall i :: 0 <= i < |apps| ==> WellFormed(apps[i]) && Encodable(apps[i])
    ensures MapAll(ParseAppIdState, AppsJson(apps)) == Ok(TruncatedApps(apps))
  {
    var items := AppsJson(apps);
    var ts := TruncatedApps(apps);
    forall i | 0 <= i < |apps|
      ensures ParseAppIdState(items[i]) == Ok(ts[i])
    {
      AppsJsonAt(apps, i);
      AppRoundTrip(apps[i]);
    }
    MapAllOk(ParseAppIdState, items, ts);
  }

  lemma {:induction false} AppsJsonAt(apps: seq<AppIdState>, i: nat)
    requires forall i :: 0 <= i < |apps| ==> Encodable(apps[i])
    requires i < |apps|
    ensures AppsJson(apps)[i] == AppJson(apps[i])
    decreases |apps|
  {
    var n := |apps| - 1;
    if i < n {
      AppsJsonAt(apps[..n], i);
      assert apps[..n][i] == apps[i];
    }
  }

  /** Encoding a state and decoding the text gives a `State` again: the applications in
      their order, every date with its datetime cut to whole seconds, and a missing
      `last_update_time` missing again. */
  lemma StateRoundTrip(st: State)
    requires forall i :: 0 <= i < |st.apps| ==> WellFormed(st.apps[i]) && Encodable(st.apps[i])
    requires st.lastUpdateTime.Some? ==> InDatetimeRange(st.lastUpdateTime.value)
    ensures Hook(StateJson(st).pairs) == Ok(StateObject(TruncatedState(st)))
  {
    MembersRoundTrip(st);
  }

  lemma MembersRoundTrip(st: State)
    requires forall i :: 0 <= i < |st.apps| ==> WellFormed(st.apps[i]) && Encodable(st.apps[i])
    requires st.lastUpdateTime.Some? ==> InDatetimeRange(st.lastUpdateTime.value)
    ensures StateFromMembers(Some(LastJson(st.lastUpdateTime)), Some(JArray(AppsJson(st.apps)))) == Ok(TruncatedState(st))
  {
    LastRoundTrip(st.lastUpdateTime);
    AppListRoundTrip(st.apps);
    StateFromDecoded(LastJson(st.lastUpdateTime), JArray(AppsJson(st.apps)), TruncatedState(st));
  }

  lemma AppListRoundTrip(apps: seq<AppIdState>)
    requires forall i :: 0 <= i < |apps| ==> WellFormed(apps[i]) && Encodable(apps[i])
    ensures ParseAppList(JArray(AppsJson(apps))) == Ok(TruncatedApps(apps))
  {
    ParseArray(AppsJson(apps));
    AppsRoundTrip(apps);
  }

  lemma ParseArray(items: seq<Json>)
    ensures ParseAppList(JArray(items)) == MapAll(ParseAppIdState, items)
  {
  }

  lemma StateFromDecoded(lastJ: Json, list: Json, st: State)
    requires DecodeLast(lastJ) == Ok(st.lastUpdateTime) && ParseAppList(list) == Ok(st.apps)
    ensures StateFromMembers(Some(lastJ), Some(list)) == Ok(st)
  {
  }
}
