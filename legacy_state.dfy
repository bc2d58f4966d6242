/** The older state keeping of `state/controller.py`, whose `StateController` is repeated
    word for word (with `api_key` for `app_id`) in `state_storage.py`, together with the
    `State` record and the `FileStateStorage` of `state_storage.py` that it works on.
    Timestamps are POSIX seconds; per-date entries are keyed by the `YYYY-MM-DD` string. */
module LegacyState {
  import opened Common
  import opened Calendar
  import opened Dicts
  import opened JsonValues

  /** `State` of `state_storage.py`: `db_scheme`, `last_update_time` and
      `date_update_time[app_id][date string]`. */
  datatype State = State(dbScheme: Option<string>, lastUpdateTime: Option<Timestamp>,
                         dateUpdateTime: Dict<string, Dict<string, Timestamp>>)

  /** Every dictionary of the state has distinct keys, as Python dictionaries do. */
  predicate WellKeyed(st: State)
  {
    UniqueKeys(st.dateUpdateTime) &&
    forall e :: e in st.dateUpdateTime ==> UniqueKeys(e.1)
  }

  /** `State()` */
  const EmptyState: State := State(None, None, [])

  /** The per-date entries of one application, `date_update_time.get(app_id, dict())`. */
  function EntriesOf(st: State, appId: string): Dict<string, Timestamp>
  {
    match Get(st.dateUpdateTime, appId)
    case None => []
    case Some(entries) => entries
  }

  /** The entry for `(appId, key)`, if any. */
  function Entry(st: State, appId: string, key: string): Option<Timestamp>
  {
    Get(EntriesOf(st, appId), key)
  }

  /** Python's truth value of an optional float: `None` and `0.0` are false. */
  predicate Truthy(ts: Option<Timestamp>)
  {
    ts.Some? && ts.value != 0.0
  }

  /** `datetime.fromtimestamp` on a stamp outside the years 1 to 9999. */
  const YearRangeError := "ValueError: year is out of range"

  /** A `date` minus a `timedelta` that leaves years 1 to 9999. */
  const DateRangeError := "OverflowError: date value out of range"

  /** `wait_time`: `None` without a (truthy) previous finish or once its deadline has
      passed, else the time left. Reading the stamp, and adding the interval to it, fail
      outside the years 1 to 9999. */
  function RemainingWait(last: Option<Timestamp>, interval: int, now: Instant): (r: Result<Option<int>, string>)
    ensures !Truthy(last) ==> r == Ok(None)
    ensures Truthy(last) ==> var t := FromTimestamp(last.value);
      && (r.Err? <==> !InDatetimeRange(t) || !InDatetimeRange(t + interval))
      && (r == Ok(None) <==> InDatetimeRange(t) && InDatetimeRange(t + interval) && t + interval < now)
    ensures r.Ok? && r.value.Some? ==> r.value.value >= 0 && now + r.value.value == FromTimestamp(last.value) + interval
  {
    if !Truthy(last) then Ok(None)
    else
      match UtcFromTimestamp(last.value)
      case None => Err(YearRangeError)
      case Some(time) =>
        if !InDatetimeRange(time + interval) then Err(DateRangeError)
        else
          var delta := time + interval - now;
          if delta < 0 then Ok(None) else Ok(Some(delta))
  }

  /** After a finish stamped at `t` (other than the epoch itself, whose stamp `0.0` reads
      as no stamp), the wait runs until `t + interval`, unless that lies past `datetime.max`. */
  lemma WaitAfterFinish(t: Instant, interval: int, now: Instant)
    requires t != UnixEpoch && InDatetimeRange(t)
    ensures RemainingWait(Some(ToTimestamp(t)), interval, now).Err? <==> !InDatetimeRange(t + interval)
    ensures InDatetimeRange(t + interval) ==>
              RemainingWait(Some(ToTimestamp(t)), interval, now)
                == if t + interval < now then Ok(None) else Ok(Some(t + interval - now))
  {
    TimestampRoundTrip(t);
  }

  // ----- dates_to_update -----

  /** Whether `dates_to_update` lists date `d` of an application with these entries: when it
      has no truthy entry, or when it was updated at least `interval` before `now` and that
      update came less than `freshLimit` after the day's last instant. */
  predicate Wanted(entries: Dict<string, Timestamp>, d: Date, now: Instant, interval: int, freshLimit: int)
    requires ValidDate(d)
  {
    match Get(entries, FormatDate(d))
    case None => true
    case Some(ts) =>
      if ts == 0.0 then true
      else
        var updatedAt := FromTimestamp(ts);
        var updated := now - updatedAt < interval;
        var isFresh := updatedAt - EndOfDay(d) < freshLimit;
        !updated && isFresh
  }

  predicate AllValid(ds: seq<Date>)
  {
    forall i :: 0 <= i < |ds| ==> ValidDate(ds[i])
  }

  /** A truthy entry for date `d` whose instant `datetime.fromtimestamp` cannot hold: reading
      it fails `dates_to_update` as a whole. */
  predicate Unreadable(entries: Dict<string, Timestamp>, d: Date)
    requires ValidDate(d)
  {
    match Get(entries, FormatDate(d))
    case None => false
    case Some(ts) => ts != 0.0 && UtcFromTimestamp(ts).None?
  }

  /** No date of `ds` has an unreadable entry. */
  predicate AllReadable(entries: Dict<string, Timestamp>, ds: seq<Date>)
    requires AllValid(ds)
  {
    ds == [] || (AllReadable(entries, ds[..|ds| - 1]) && !Unreadable(entries, ds[|ds| - 1]))
  }

  lemma {:induction false} AllReadableIff(entries: Dict<string, Timestamp>, ds: seq<Date>)
    requires AllValid(ds)
    ensures AllReadable(entries, ds) <==> forall i :: 0 <= i < |ds| ==> !Unreadable(entries, ds[i])
  {
    if ds != [] {
      var init := ds[..|ds| - 1];
      AllReadableIff(entries, init);
      if AllReadable(entries, ds) {
        forall i | 0 <= i < |ds|
          ensures !Unreadable(entries, ds[i])
        {
          if i < |ds| - 1 {
            assert ds[i] == init[i];
          }
        }
      } else if !Unreadable(entries, ds[|ds| - 1]) {
        var j :| 0 <= j < |init| && Unreadable(entries, init[j]);
        assert ds[j] == init[j];
      }
    }
  }

  /** The pairs one application contributes, over the dates `ds` in order. */
  function DatesFor(appId: string, entries: Dict<string, Timestamp>, ds: seq<Date>, now: Instant,
                    interval: int, freshLimit: int): seq<(string, Date)>
    requires AllValid(ds)
  {
    if ds == [] then []
    else
      var d := ds[|ds| - 1];
      DatesFor(appId, entries, ds[..|ds| - 1], now, interval, freshLimit)
        + (if Wanted(entries, d, now, interval, freshLimit) then [(appId, d)] else [])
  }

  lemma ReadableSnoc(entries: Dict<string, Timestamp>, ds: seq<Date>, i: nat)
    requires AllValid(ds) && i < |ds| && AllReadable(entries, ds[..i]) && !Unreadable(entries, ds[i])
    ensures AllReadable(entries, ds[..i + 1])
  {
    assert ds[..i + 1][..i] == ds[..i];
  }

  /** Every application of `appIds` has only readable entries over `ds`. */
  predicate AppsReadable(st: State, appIds: seq<string>, ds: seq<Date>)
    requires AllValid(ds)
  {
    appIds == [] || (AppsReadable(st, appIds[..|appIds| - 1], ds) && AllReadable(EntriesOf(st, appIds[|appIds| - 1]), ds))
  }

  lemma {:induction false} AppsReadableIff(st: State, appIds: seq<string>, ds: seq<Date>)
    requires AllValid(ds)
    ensures AppsReadable(st, appIds, ds) <==> forall n :: 0 <= n < |appIds| ==> AllReadable(EntriesOf(st, appIds[n]), ds)
  {
    if appIds != [] {
      var init := appIds[..|appIds| - 1];
      AppsReadableIff(st, init, ds);
      if AppsReadable(st, appIds, ds) {
        forall n | 0 <= n < |appIds|
          ensures AllReadable(EntriesOf(st, appIds[n]), ds)
        {
          if n < |appIds| - 1 {
            assert appIds[n] == init[n];
          }
        }
      } else if AllReadable(EntriesOf(st, appIds[|appIds| - 1]), ds) {
        var j :| 0 <= j < |init| && !AllReadable(EntriesOf(st, init[j]), ds);
        assert appIds[j] == init[j];
      }
    }
  }

  lemma AppsReadableSnoc(st: State, appIds: seq<string>, n: nat, ds: seq<Date>)
    requires AllValid(ds) && n < |appIds| && AppsReadable(st, appIds[..n], ds) && AllReadable(EntriesOf(st, appIds[n]), ds)
    ensures AppsReadable(st, appIds[..n + 1], ds)
  {
    assert appIds[..n + 1][..n] == appIds[..n];
  }

  /** An application with an unreadable entry makes every longer list of applications
      unreadable. */
  lemma {:induction false} AppsUnreadable(st: State, appIds: seq<string>, n: nat, ds: seq<Date>)
    requires AllValid(ds) && n < |appIds| && !AllReadable(EntriesOf(st, appIds[n]), ds)
    ensures !AppsReadable(st, appIds, ds)
    decreases |appIds|
  {
    if n < |appIds| - 1 {
      var init := appIds[..|appIds| - 1];
      assert init[n] == appIds[n];
      AppsUnreadable(st, init, n, ds);
    }
  }

  /** A date with an unreadable entry makes every longer run of dates unreadable. */
  lemma {:induction false} ReadablePrefix(entries: Dict<string, Timestamp>, ds: seq<Date>, i: nat)
    requires AllValid(ds) && i < |ds| && Unreadable(entries, ds[i])
    ensures !AllReadable(entries, ds)
    decreases |ds|
  {
    if i < |ds| - 1 {
      var init := ds[..|ds| - 1];
      assert init[i] == ds[i];
      ReadablePrefix(entries, init, i);
    }
  }

  /** The result of `dates_to_update` over the applications `appIds` and the dates `ds`. */
  function DatesToUpdate(st: State, appIds: seq<string>, ds: seq<Date>, now: Instant,
                         interval: int, freshLimit: int): seq<(string, Date)>
    requires AllValid(ds)
  {
    if appIds == [] then []
    else
      var appId := appIds[|appIds| - 1];
      DatesToUpdate(st, appIds[..|appIds| - 1], ds, now, interval, freshLimit)
        + DatesFor(appId, EntriesOf(st, appId), ds, now, interval, freshLimit)
  }

  /** The state after `mark_updated` sets `key` of `appId` to `ts`. */
  function Marked(st: State, appId: string, key: string, ts: Timestamp): State
  {
    st.(dateUpdateTime := Set(st.dateUpdateTime, appId, Set(EntriesOf(st, appId), key, ts)))
  }

  /** After `mark_updated`, that one entry is `ts`, every other entry is what it was, and
      distinct keys stay distinct. */
  lemma MarkedEntries(st: State, appId: string, key: string, ts: Timestamp)
    ensures forall a, k :: Entry(Marked(st, appId, key, ts), a, k) ==
              if a == appId && k == key then Some(ts) else Entry(st, a, k)
    ensures WellKeyed(st) ==> WellKeyed(Marked(st, appId, key, ts))
  {
    var entries := Set(EntriesOf(st, appId), key, ts);
    var st' := Marked(st, appId, key, ts);
    if WellKeyed(st) {
      MarkedWellKeyed(st, appId, entries);
    }
    forall a, k
      ensures Entry(st', a, k) == if a == appId && k == key then Some(ts) else Entry(st, a, k)
    {
      GetSet(st.dateUpdateTime, appId, entries, a);
      if a == appId {
        GetSet(EntriesOf(st, appId), key, ts, k);
      }
    }
  }

  lemma MarkedWellKeyed(st: State, appId: string, entries: Dict<string, Timestamp>)
    requires WellKeyed(st) && UniqueKeys(entries)
    ensures WellKeyed(st.(dateUpdateTime := Set(st.dateUpdateTime, appId, entries)))
  {
    SetEntries(st.dateUpdateTime, appId, entries);
  }

  /** One more application adds the dates of that application. */
  lemma DatesToUpdateSnoc(st: State, appIds: seq<string>, n: nat, ds: seq<Date>, now: Instant,
                          interval: int, freshLimit: int)
    requires AllValid(ds) && n < |appIds|
    ensures DatesToUpdate(st, appIds[..n + 1], ds, now, interval, freshLimit)
      == DatesToUpdate(st, appIds[..n], ds, now, interval, freshLimit)
         + DatesFor(appIds[n], EntriesOf(st, appIds[n]), ds, now, interval, freshLimit)
  {
    assert appIds[..n + 1][..n] == appIds[..n];
  }

  /** One more date at the end of the range adds at most that date. */
  lemma DatesForSnoc(appId: string, entries: Dict<string, Timestamp>, ds: seq<Date>, i: nat, now: Instant,
                     interval: int, freshLimit: int)
    requires AllValid(ds) && i < |ds|
    ensures AllValid(ds[..i]) && AllValid(ds[..i + 1])
    ensures DatesFor(appId, entries, ds[..i + 1], now, interval, freshLimit)
            == DatesFor(appId, entries, ds[..i], now, interval, freshLimit)
               + (if Wanted(entries, ds[i], now, interval, freshLimit) then [(appId, ds[i])] else [])
  {
    assert ds[..i + 1][..i] == ds[..i];
  }

  lemma WindowValid(today: Date, limit: int)
    requires ValidDate(today - limit) && ValidDate(today)
    ensures AllValid(Window(today, limit))
  {
  }

  lemma InLastOrBefore(ds: seq<Date>, v: Date)
    requires ds != []
    ensures v in ds <==> v in ds[..|ds| - 1] || v == ds[|ds| - 1]
  {
    assert ds == ds[..|ds| - 1] + [ds[|ds| - 1]];
  }

  /** A pair is listed for one application exactly when its date is in the range and is
      wanted. */
  lemma {:induction false} DatesForMembers(appId: string, entries: Dict<string, Timestamp>, ds: seq<Date>,
                                           now: Instant, interval: int, freshLimit: int, x: (string, Date))
    requires AllValid(ds)
    ensures x in DatesFor(appId, entries, ds, now, interval, freshLimit) <==>
              x.0 == appId && x.1 in ds && Wanted(entries, x.1, now, interval, freshLimit)
    decreases |ds|
  {
    if ds != [] {
      var n := |ds| - 1;
      var init := ds[..n];
      var d := ds[n];
      DatesForSnoc(appId, entries, ds, n, now, interval, freshLimit);
      DatesForMembers(appId, entries, init, now, interval, freshLimit, x);
      assert ds[..n + 1] == ds;
      InLastOrBefore(ds, x.1);
      var r0 := DatesFor(appId, entries, init, now, interval, freshLimit);
      var w := Wanted(entries, d, now, interval, freshLimit);
      assert DatesFor(appId, entries, ds, now, interval, freshLimit) == r0 + (if w then [(appId, d)] else []);
      assert x in r0 + (if w then [(appId, d)] else []) <==> x in r0 || (w && x == (appId, d));
    }
  }

  /** A pair is listed exactly when its application is among `appIds`, its date is in the
      range, and the date is wanted for that application's entries. */
  lemma {:induction false} DatesToUpdateMembers(st: State, appIds: seq<string>, ds: seq<Date>, now: Instant,
                                                interval: int, freshLimit: int, x: (string, Date))
    requires AllValid(ds)
    ensures x in DatesToUpdate(st, appIds, ds, now, interval, freshLimit) <==>
              x.0 in appIds && x.1 in ds && Wanted(EntriesOf(st, x.0), x.1, now, interval, freshLimit)
    decreases |appIds|
  {
    if appIds != [] {
      var init := appIds[..|appIds| - 1];
      var last := appIds[|appIds| - 1];
      DatesToUpdateMembers(st, init, ds, now, interval, freshLimit, x);
      DatesForMembers(last, EntriesOf(st, last), ds, now, interval, freshLimit, x);
      assert appIds == init + [last];
    }
  }

  /** A date without a (truthy) entry is always listed, whatever the clock says. */
  lemma UnrecordedListed(st: State, appIds: seq<string>, ds: seq<Date>, now: Instant,
                         interval: int, freshLimit: int, appId: string, i: nat)
    requires AllValid(ds) && appId in appIds && i < |ds|
    requires !Truthy(Entry(st, appId, FormatDate(ds[i])))
    ensures (appId, ds[i]) in DatesToUpdate(st, appIds, ds, now, interval, freshLimit)
  {
    DatesToUpdateMembers(st, appIds, ds, now, interval, freshLimit, (appId, ds[i]));
  }

  /** A date whose update is less than `interval` old is not listed. */
  lemma RecentNotListed(st: State, appIds: seq<string>, ds: seq<Date>, now: Instant,
                        interval: int, freshLimit: int, appId: string, d: Date, t: Instant)
    requires AllValid(ds) && ValidDate(d)
    requires Entry(st, appId, FormatDate(d)) == Some(ToTimestamp(t)) && t != UnixEpoch
    requires now - t < interval
    ensures (appId, d) !in DatesToUpdate(st, appIds, ds, now, interval, freshLimit)
  {
    TimestampRoundTrip(t);
    DatesToUpdateMembers(st, appIds, ds, now, interval, freshLimit, (appId, d));
  }

  predicate Ascending(ds: seq<Date>)
  {
    forall i, j :: 0 <= i < j < |ds| ==> ds[i] < ds[j]
  }

  predicate PairsAscending(r: seq<(string, Date)>)
  {
    forall i, j :: 0 <= i < j < |r| ==> r[i].1 < r[j].1
  }

  lemma BeforeLast(ds: seq<Date>, v: Date)
    requires Ascending(ds) && ds != [] && v in ds[..|ds| - 1]
    ensures v < ds[|ds| - 1]
  {
    var k :| 0 <= k < |ds| - 1 && ds[..|ds| - 1][k] == v;
    assert ds[k] == v;
  }

  /** Over an ascending range, one application's dates come out ascending. */
  lemma {:induction false} DatesForAscending(appId: string, entries: Dict<string, Timestamp>, ds: seq<Date>,
                                             now: Instant, interval: int, freshLimit: int)
    requires AllValid(ds) && Ascending(ds)
    ensures PairsAscending(DatesFor(appId, entries, ds, now, interval, freshLimit))
    decreases |ds|
  {
    if ds != [] {
      var n := |ds| - 1;
      var init := ds[..n];
      var d := ds[n];
      assert ds[..n + 1] == ds;
      assert Ascending(init);
      DatesForAscending(appId, entries, init, now, interval, freshLimit);
      var r0 := DatesFor(appId, entries, init, now, interval, freshLimit);
      var r := DatesFor(appId, entries, ds, now, interval, freshLimit);
      DatesForGrows(appId, entries, ds, now, interval, freshLimit);
      if r != r0 {
        forall i, j | 0 <= i < j < |r|
          ensures r[i].1 < r[j].1
        {
          assert r[i] == r0[i];
          if j == |r0| {
            DatesForMembers(appId, entries, init, now, interval, freshLimit, r0[i]);
            BeforeLast(ds, r0[i].1);
          } else {
            assert r[j] == r0[j];
          }
        }
      }
    }
  }

  /** The range's last date adds at most one pair, for that date. */
  lemma DatesForGrows(appId: string, entries: Dict<string, Timestamp>, ds: seq<Date>,
                      now: Instant, interval: int, freshLimit: int)
    requires AllValid(ds) && ds != []
    ensures AllValid(ds[..|ds| - 1])
    ensures var r0 := DatesFor(appId, entries, ds[..|ds| - 1], now, interval, freshLimit);
            var r := DatesFor(appId, entries, ds, now, interval, freshLimit);
            r == r0 || r == r0 + [(appId, ds[|ds| - 1])]
  {
    DatesForSnoc(appId, entries, ds, |ds| - 1, now, interval, freshLimit);
    assert ds[..|ds|] == ds;
  }

  /** No pair of application `q` comes before a pair of application `p`. */
  predicate NoneAfter(r: seq<(string, Date)>, p: string, q: string)
  {
    forall i, j :: 0 <= i < j < |r| && r[i].0 == q ==> r[j].0 != p
  }

  predicate Distinct(ids: seq<string>)
  {
    forall i, j :: 0 <= i < j < |ids| ==> ids[i] != ids[j]
  }

  lemma LastNotBefore(ids: seq<string>)
    requires Distinct(ids) && ids != []
    ensures ids[|ids| - 1] !in ids[..|ids| - 1]
  {
    var init := ids[..|ids| - 1];
    forall k | 0 <= k < |init|
      ensures init[k] != ids[|ids| - 1]
    {
      assert init[k] == ids[k];
    }
  }

  /** With distinct applications, the pairs come grouped in the order of `appIds`: none
      of a later application comes before one of an earlier. */
  lemma {:induction false} DatesToUpdateGrouped(st: State, appIds: seq<string>, ds: seq<Date>, now: Instant,
                                                interval: int, freshLimit: int, a: nat, b: nat)
    requires AllValid(ds) && a < b < |appIds| && Distinct(appIds)
    ensures NoneAfter(DatesToUpdate(st, appIds, ds, now, interval, freshLimit), appIds[a], appIds[b])
    decreases |appIds|
  {
    var init := appIds[..|appIds| - 1];
    var last := appIds[|appIds| - 1];
    var r0 := DatesToUpdate(st, init, ds, now, interval, freshLimit);
    var r1 := DatesFor(last, EntriesOf(st, last), ds, now, interval, freshLimit);
    var r := DatesToUpdate(st, appIds, ds, now, interval, freshLimit);
    assert r == r0 + r1;
    LastNotBefore(appIds);
    assert appIds[a] == init[a];
    if b < |init| {
      assert Distinct(init);
      DatesToUpdateGrouped(st, init, ds, now, interval, freshLimit, a, b);
      assert appIds[b] == init[b];
    }
    forall i, j | 0 <= i < j < |r| && r[i].0 == appIds[b]
      ensures r[j].0 != appIds[a]
    {
      if j >= |r0| {
        DatesForMembers(last, EntriesOf(st, last), ds, now, interval, freshLimit, r[j]);
        assert r1[j - |r0|] == r[j];
      } else {
        assert r[i] == r0[i] && r[j] == r0[j];
        DatesToUpdateMembers(st, init, ds, now, interval, freshLimit, r0[i]);
      }
    }
  }

  class StateController {
    /** `self._state` */
    var state: State
    /** what the state storage holds: the state as of the last save */
    var stored: State

    /** `StateController(state_storage)` with `state_storage.load()` giving `loaded`. */
    constructor (loaded: State)
      ensures state == loaded && stored == loaded
    {
      state := loaded;
      stored := loaded;
    }

    /** `save` */
    method Save()
      modifies this
      ensures state == old(state) && stored == state
    {
      stored := state;
    }

    /** `is_valid_scheme`: `None` never equals a scheme. */
    function IsValidScheme(dbScheme: string): (r: bool)
      reads this
      ensures r <==> state.dbScheme == Some(dbScheme)
    {
      state.dbScheme == Some(dbScheme)
    }

    /** `update_db_scheme`: nothing for the current scheme; otherwise every entry and the
        finish stamp are dropped, only the new scheme is kept, and the state is saved. */
    method UpdateDbScheme(dbScheme: string)
      modifies this
      ensures old(state.dbScheme) == Some(dbScheme) ==> state == old(state) && stored == old(stored)
      ensures old(state.dbScheme) != Some(dbScheme) ==>
                state == EmptyState.(dbScheme := Some(dbScheme)) && stored == state
      ensures IsValidScheme(dbScheme) && (WellKeyed(old(state)) ==> WellKeyed(state))
    {
      if IsValidScheme(dbScheme) {
        return;
      }
      state := EmptyState;
      state := state.(dbScheme := Some(dbScheme));
      Save();
    }

    /** `mark_updated`: the entry of `(appId, d)` becomes the timestamp of `now`. */
    method MarkUpdated(appId: string, d: Date, now: Instant)
      requires ValidDate(d)
      modifies this
      ensures state.dbScheme == old(state.dbScheme) && state.lastUpdateTime == old(state.lastUpdateTime)
      ensures forall a, k :: Entry(state, a, k) ==
                if a == appId && k == FormatDate(d) then Some(ToTimestamp(now)) else Entry(old(state), a, k)
      ensures stored == state
      ensures WellKeyed(old(state)) ==> WellKeyed(state)
    {
      var dateStr := FormatDate(d);
      var ts := ToTimestamp(now);
      var entries := EntriesOf(state, appId);
      entries := Set(entries, dateStr, ts);
      state := state.(dateUpdateTime := Set(state.dateUpdateTime, appId, entries));
      Save();
      assert state == Marked(old(state), appId, dateStr, ts);
      MarkedEntries(old(state), appId, dateStr, ts);
    }

    /** `finish_updates` */
    method FinishUpdates(now: Instant)
      modifies this
      ensures state == old(state).(lastUpdateTime := Some(ToTimestamp(now))) && stored == state
      ensures !IsFirstUpdate() && (WellKeyed(old(state)) ==> WellKeyed(state))
    {
      state := state.(lastUpdateTime := Some(ToTimestamp(now)));
      Save();
    }

    /** `wait_time` */
    function WaitTime(interval: int, now: Instant): (r: Result<Option<int>, string>)
      reads this
      ensures r == RemainingWait(state.lastUpdateTime, interval, now)
    {
      RemainingWait(state.lastUpdateTime, interval, now)
    }

    /** `is_first_update`: an `is None` test, so a stamp of `0.0` is not a first update
        (although `wait_time` treats it as no stamp). */
    function IsFirstUpdate(): (r: bool)
      reads this
      ensures r <==> state.lastUpdateTime.None?
    {
      state.lastUpdateTime.None?
    }

    /** `dates_to_update`, with `datetime.today()` given as `now`: the listed pairs, or the
        error of the first entry that cannot be read. A window that would start before year 1
        (or, for a negative limit, after year 9999) fails at the first application, as
        `date_to - update_limit` raises; with no application nothing is computed. */
    method DatesToUpdateNow(appIds: seq<string>, interval: int, limit: int, freshLimit: int, now: Instant)
      returns (result: Result<seq<(string, Date)>, string>)
      requires ValidDate(DateOf(now))
      ensures !ValidDate(DateOf(now) - limit) ==> result == if appIds == [] then Ok([]) else Err(DateRangeError)
      ensures ValidDate(DateOf(now) - limit) ==> AllValid(Window(DateOf(now), limit))
      ensures ValidDate(DateOf(now) - limit) ==>
                (result.Err? <==> !AppsReadable(state, appIds, Window(DateOf(now), limit)))
      ensures ValidDate(DateOf(now) - limit) && result.Ok? ==>
                result.value == DatesToUpdate(state, appIds, Window(DateOf(now), limit), now, interval, freshLimit)
    {
      var dateTo := DateOf(now);
      ghost var inRange := ValidDate(dateTo - limit);
      ghost var ds := Window(dateTo, limit);
      if inRange {
        WindowValid(dateTo, limit);
      }
      var pairs: seq<(string, Date)> := [];
      var n := 0;
      while n < |appIds|
        invariant 0 <= n <= |appIds|
        invariant !inRange ==> n == 0 && pairs == []
        invariant inRange ==> AllValid(ds)
        invariant inRange ==> pairs == DatesToUpdate(state, appIds[..n], ds, now, interval, freshLimit)
        invariant inRange ==> AppsReadable(state, appIds[..n], ds)
      {
        var appId := appIds[n];
        var dates := AppDates(appId, EntriesOf(state, appId), dateTo, limit, interval, freshLimit, now);
        if dates.Err? {
          if inRange {
            AppsUnreadable(state, appIds, n, ds);
          }
          return Err(dates.error);
        }
        AppsReadableSnoc(state, appIds, n, ds);
        DatesToUpdateSnoc(state, appIds, n, ds, now, interval, freshLimit);
        pairs := pairs + dates.value;
        n := n + 1;
      }
      assert appIds[..n] == appIds;
      result := Ok(pairs);
    }

    /** The body of the inner loop of `dates_to_update`: whether date `d` is listed, or the
        error of reading its entry. */
    method DateWanted(entries: Dict<string, Timestamp>, d: Date, now: Instant, interval: int, freshLimit: int)
      returns (r: Result<bool, string>)
      requires ValidDate(d)
      ensures r.Err? <==> Unreadable(entries, d)
      ensures r.Ok? ==> r.value == Wanted(entries, d, now, interval, freshLimit)
    {
      var dateStr := FormatDate(d);
      var updatedAtTs := Get(entries, dateStr);
      if !Truthy(updatedAtTs) {
        return Ok(true);
      }
      var read := UtcFromTimestamp(updatedAtTs.value);
      if read.None? {
        return Err(YearRangeError);
      }
      var updatedAt := read.value;
      var lastEventDate := EndOfDay(d);
      var updated := now - updatedAt < interval;
      var isFresh := updatedAt - lastEventDate < freshLimit;
      r := Ok(!(updated || !isFresh));
    }

    /** The inner loop of `dates_to_update`, over `pd.date_range(date_from, date_to)`, after
        `date_from = date_to - update_limit`, which raises when it leaves years 1 to 9999. */
    method AppDates(appId: string, entries: Dict<string, Timestamp>, dateTo: Date, limit: int,
                    interval: int, freshLimit: int, now: Instant)
      returns (result: Result<seq<(string, Date)>, string>)
      requires ValidDate(dateTo)
      ensures !ValidDate(dateTo - limit) ==> result == Err(DateRangeError)
      ensures ValidDate(dateTo - limit) ==> AllValid(Window(dateTo, limit))
      ensures ValidDate(dateTo - limit) ==> (result.Err? <==> !AllReadable(entries, Window(dateTo, limit)))
      ensures ValidDate(dateTo - limit) && result.Ok? ==>
                result.value == DatesFor(appId, entries, Window(dateTo, limit), now, interval, freshLimit)
    {
      if !ValidDate(dateTo - limit) {
        return Err(DateRangeError);
      }
      var dateFrom := dateTo - limit;
      ghost var ds := Window(dateTo, limit);
      WindowValid(dateTo, limit);
      var dates: seq<(string, Date)> := [];
      var i := 0;
      while dateFrom + i <= dateTo
        invariant 0 <= i <= |ds|
        invariant dates == DatesFor(appId, entries, ds[..i], now, interval, freshLimit)
        invariant AllReadable(entries, ds[..i])
      {
        var d := dateFrom + i;
        assert d == ds[i];
        var wanted := DateWanted(entries, d, now, interval, freshLimit);
        if wanted.Err? {
          ReadablePrefix(entries, ds, i);
          return Err(wanted.error);
        }
        DatesForSnoc(appId, entries, ds, i, now, interval, freshLimit);
        ReadableSnoc(entries, ds, i);
        if wanted.value {
          dates := dates + [(appId, d)];
        }
        i := i + 1;
      }
      assert ds[..i] == ds;
      result := Ok(dates);
    }
  }
}
