/** What one run of the scheduler guarantees, stated over the step functions of
    `Scheduling` that the `Scheduler` methods are proved to follow. */
module SchedulerFacts {
  import opened Common
  import opened Calendar
  import opened Scheduling

  // ----- what a pass over one application leaves alone -----

  /** The application ids of a state, in order. */
  function Ids(st: State): (ids: seq<string>)
    ensures |ids| == |st.apps|
    ensures forall k :: 0 <= k < |ids| ==> ids[k] == st.apps[k].appId
  {
    seq(|st.apps|, k requires 0 <= k < |st.apps| => st.apps[k].appId)
  }

  /** A pass over application `idx` of `st` that produced `o`: only that application's state
      changed (keeping its id), the finish stamp is untouched, and every request it yielded
      is for that application and was saved with the old finish stamp. */
  ghost predicate Local(st: State, idx: nat, o: Outcome)
    requires idx < |st.apps|
  {
    && Ids(o.st) == Ids(st)
    && o.st.lastUpdateTime == st.lastUpdateTime
    && (forall k :: 0 <= k < |st.apps| && k != idx ==> o.st.apps[k] == st.apps[k])
    && (forall j :: 0 <= j < |o.steps| ==>
          && o.steps[j].request.appId == st.apps[idx].appId
          && o.steps[j].after.lastUpdateTime == st.lastUpdateTime)
  }

  lemma LocalThen(st: State, idx: nat, o1: Outcome, o2: Outcome)
    requires idx < |st.apps| && Local(st, idx, o1) && idx < |o1.st.apps| && Local(o1.st, idx, o2)
    ensures Local(st, idx, Then(o1.steps, o2))
  {
    var o := Then(o1.steps, o2);
    assert Ids(o.st) == Ids(st);
    forall j | 0 <= j < |o.steps|
      ensures o.steps[j].request.appId == st.apps[idx].appId
      ensures o.steps[j].after.lastUpdateTime == st.lastUpdateTime
    {
      if j >= |o1.steps| {
        assert o.steps[j] == o2.steps[j - |o1.steps|];
        assert Ids(o1.st)[idx] == Ids(st)[idx];
      }
    }
  }

  lemma {:induction false} SweepDatesLocal(st: State, idx: nat, ds: seq<Date>, freshLimit: int)
    requires idx < |st.apps|
    ensures Local(st, idx, SweepDates(st, idx, ds, freshLimit))
    decreases |ds|
  {
    if ds != [] {
      var one := SweepOne(st, idx, ds[0], freshLimit);
      assert Local(st, idx, one);
      SweepDatesLocal(one.st, idx, ds[1..], freshLimit);
      LocalThen(st, idx, one, SweepDates(one.st, idx, ds[1..], freshLimit));
    }
  }

  lemma {:induction false} ScanDatesLocal(st: State, idx: nat, ds: seq<Date>, startedAt: Instant,
                                          markTime: Instant, interval: int, freshLimit: int)
    requires idx < |st.apps|
    ensures Local(st, idx, ScanDates(st, idx, ds, startedAt, markTime, interval, freshLimit))
    decreases |ds|
  {
    if ds != [] {
      var one := UpdateOne(st, idx, ds[0], startedAt, markTime, interval, freshLimit);
      assert Local(st, idx, one);
      ScanDatesLocal(one.st, idx, ds[1..], startedAt, markTime, interval, freshLimit);
      LocalThen(st, idx, one, ScanDates(one.st, idx, ds[1..], startedAt, markTime, interval, freshLimit));
    }
  }

  // ----- one state per application -----

  predicate NoDuplicates(ids: seq<string>)
  {
    forall i, j :: 0 <= i < j < |ids| ==> ids[i] != ids[j]
  }

  /** `_get_or_create_app_id_state` reuses the state of a known application and appends one
      only for an unknown id, so no application ever gets a second state. */
  lemma GetOrCreateIds(st: State, appId: string)
    ensures var (idx, st') := GetOrCreate(st, appId);
      && Ids(st') == (if appId in Ids(st) then Ids(st) else Ids(st) + [appId])
      && st'.lastUpdateTime == st.lastUpdateTime
      && (NoDuplicates(Ids(st)) ==> NoDuplicates(Ids(st')))
  {
    var (idx, st') := GetOrCreate(st, appId);
    if appId in Ids(st) {
      var k :| 0 <= k < |Ids(st)| && Ids(st)[k] == appId;
      assert st.apps[k].appId == appId;
    } else {
      assert Ids(st') == Ids(st) + [appId];
    }
  }

  /** The requests of one application are all for it; the only change to the list of
      states is the one `_get_or_create_app_id_state` makes. */
  lemma ProcessAppFacts(st: State, appId: string, startedAt: Instant, markTime: Instant,
                        limit: int, interval: int, freshLimit: int)
    ensures var o := ProcessApp(st, appId, startedAt, markTime, limit, interval, freshLimit);
      && Ids(o.st) == (if appId in Ids(st) then Ids(st) else Ids(st) + [appId])
      && o.st.lastUpdateTime == st.lastUpdateTime
      && (forall j :: 0 <= j < |o.steps| ==>
            o.steps[j].request.appId == appId && o.steps[j].after.lastUpdateTime == st.lastUpdateTime)
  {
    GetOrCreateIds(st, appId);
    var (idx, st1) := GetOrCreate(st, appId);
    var o1 := SweepDates(st1, idx, st1.apps[idx].order, freshLimit);
    SweepDatesLocal(st1, idx, st1.apps[idx].order, freshLimit);
    var ds := Window(DateOf(startedAt), limit);
    ScanDatesLocal(o1.st, idx, ds, startedAt, markTime, interval, freshLimit);
    assert Ids(o1.st)[idx] == Ids(st1)[idx];
    LocalThen(st1, idx, o1, ScanDates(o1.st, idx, ds, startedAt, markTime, interval, freshLimit));
  }

  /** Over a whole run: states already present keep their place, every listed application
      ends up with a state and no application has two. */
  lemma {:induction false} ProcessAppsIds(st: State, appIds: seq<string>, startedAt: Instant,
                                          markTime: Instant, limit: int, interval: int, freshLimit: int)
    requires NoDuplicates(Ids(st))
    ensures var o := ProcessApps(st, appIds, startedAt, markTime, limit, interval, freshLimit);
      && NoDuplicates(Ids(o.st))
      && |Ids(st)| <= |Ids(o.st)| && Ids(o.st)[..|Ids(st)|] == Ids(st)
      && (forall id :: id in appIds ==> id in Ids(o.st))
    decreases |appIds|
  {
    if appIds != [] {
      var one := ProcessApp(st, appIds[0], startedAt, markTime, limit, interval, freshLimit);
      ProcessAppFacts(st, appIds[0], startedAt, markTime, limit, interval, freshLimit);
      GetOrCreateIds(st, appIds[0]);
      ProcessAppsIds(one.st, appIds[1..], startedAt, markTime, limit, interval, freshLimit);
      var rest := ProcessApps(one.st, appIds[1..], startedAt, markTime, limit, interval, freshLimit);
      IdsGrow(Ids(st), Ids(one.st), Ids(rest.st), appIds);
    }
  }

  /** The list bookkeeping of `ProcessAppsIds`: `mid` is `before` with `ids[0]` added if it
      was missing, and `after` extends `mid` and holds the rest of `ids`. */
  lemma IdsGrow(before: seq<string>, mid: seq<string>, after: seq<string>, ids: seq<string>)
    requires |ids| > 0 && mid == (if ids[0] in before then before else before + [ids[0]])
    requires |mid| <= |after| && after[..|mid|] == mid
    requires forall id :: id in ids[1..] ==> id in after
    ensures |before| <= |after| && after[..|before|] == before
    ensures forall id :: id in ids ==> id in after
  {
    assert after[..|before|] == mid[..|before|];
    forall id | id in ids
      ensures id in after
    {
      if id == ids[0] {
        var k :| 0 <= k < |mid| && mid[k] == id;
        assert after[k] == id;
      } else {
        assert id in ids[1..];
      }
    }
  }

  /** Every request of a run belongs to a listed application. */
  lemma {:induction false} ProcessAppsRequests(st: State, appIds: seq<string>, startedAt: Instant,
                                               markTime: Instant, limit: int, interval: int, freshLimit: int)
    ensures var o := ProcessApps(st, appIds, startedAt, markTime, limit, interval, freshLimit);
      forall j :: 0 <= j < |o.steps| ==> o.steps[j].request.appId in appIds
    decreases |appIds|
  {
    if appIds != [] {
      var one := ProcessApp(st, appIds[0], startedAt, markTime, limit, interval, freshLimit);
      ProcessAppFacts(st, appIds[0], startedAt, markTime, limit, interval, freshLimit);
      var ids := appIds[1..];
      ProcessAppsRequests(one.st, ids, startedAt, markTime, limit, interval, freshLimit);
      var rest := ProcessApps(one.st, ids, startedAt, markTime, limit, interval, freshLimit);
      assert forall i :: 0 <= i < |rest.steps| ==> rest.steps[i].request.appId in ids by {
        assert var o := ProcessApps(one.st, ids, startedAt, markTime, limit, interval, freshLimit);
          forall j :: 0 <= j < |o.steps| ==> o.steps[j].request.appId in ids;
      }
      RequestsJoin(one.steps, rest, appIds);
    }
  }

  /** Steps all for the first listed application, followed by an outcome whose requests
      are all for the others. */
  lemma RequestsJoin(first: seq<Step>, rest: Outcome, appIds: seq<string>)
    requires appIds != []
    requires forall j :: 0 <= j < |first| ==> first[j].request.appId == appIds[0]
    requires forall j :: 0 <= j < |rest.steps| ==> rest.steps[j].request.appId in appIds[1..]
    ensures var o := Then(first, rest);
      forall j :: 0 <= j < |o.steps| ==> o.steps[j].request.appId in appIds
  {
    var o := Then(first, rest);
    forall j | 0 <= j < |o.steps|
      ensures o.steps[j].request.appId in appIds
    {
      if j < |first| {
        assert o.steps[j] == first[j];
      } else {
        assert o.steps[j] == rest.steps[j - |first|];
        assert rest.steps[j - |first|].request.appId in appIds[1..];
      }
    }
  }

  // ----- the finish stamp -----

  /** Every save made while the requests of a run are being handled keeps the previous
      finish stamp; only `_finish_updates`, after the last request, changes it. */
  lemma {:induction false} StampKeptDuringRun(st: State, appIds: seq<string>, startedAt: Instant,
                                              markTime: Instant, limit: int, interval: int, freshLimit: int)
    ensures var o := ProcessApps(st, appIds, startedAt, markTime, limit, interval, freshLimit);
      && o.st.lastUpdateTime == st.lastUpdateTime
      && (forall j :: 0 <= j < |o.steps| ==> o.steps[j].after.lastUpdateTime == st.lastUpdateTime)
    decreases |appIds|
  {
    if appIds != [] {
      var one := ProcessApp(st, appIds[0], startedAt, markTime, limit, interval, freshLimit);
      ProcessAppFacts(st, appIds[0], startedAt, markTime, limit, interval, freshLimit);
      StampKeptDuringRun(one.st, appIds[1..], startedAt, markTime, limit, interval, freshLimit);
      var rest := ProcessApps(one.st, appIds[1..], startedAt, markTime, limit, interval, freshLimit);
      StampsJoin(one.steps, rest, st.lastUpdateTime);
    }
  }

  /** Steps that all keep `stamp`, followed by an outcome whose steps and state keep it. */
  lemma StampsJoin(first: seq<Step>, rest: Outcome, stamp: Option<Instant>)
    requires forall j :: 0 <= j < |first| ==> first[j].after.lastUpdateTime == stamp
    requires rest.st.lastUpdateTime == stamp
    requires forall j :: 0 <= j < |rest.steps| ==> rest.steps[j].after.lastUpdateTime == stamp
    ensures var o := Then(first, rest);
      o.st.lastUpdateTime == stamp &&
      forall j :: 0 <= j < |o.steps| ==> o.steps[j].after.lastUpdateTime == stamp
  {
    var o := Then(first, rest);
    forall j | |first| <= j < |o.steps|
      ensures o.steps[j].after.lastUpdateTime == stamp
    {
      assert o.steps[j] == rest.steps[j - |first|];
    }
  }

  /** If the consumer of the `k`-th request raises, the generator stops before marking it
      and before `_finish_updates`: the storage keeps the state of the `k - 1`-th mark,
      whose finish stamp is the one the run started with. */
  lemma InterruptedRun(prev: State, appIds: seq<string>, startedAt: Instant, markTime: Instant,
                       limit: int, interval: int, freshLimit: int, k: nat)
    requires k < |ProcessApps(prev, appIds, startedAt, markTime, limit, interval, freshLimit).steps|
    ensures var o := ProcessApps(prev, appIds, startedAt, markTime, limit, interval, freshLimit);
      LastSaved(prev, o.steps, k).lastUpdateTime == prev.lastUpdateTime
  {
    StampKeptDuringRun(prev, appIds, startedAt, markTime, limit, interval, freshLimit);
  }

  // ----- the archive sweep -----

  /** A date `_archive_old_dates` archives: known, not archived yet, and last loaded at least
      `fresh_limit` after the last instant of its day. */
  predicate Stale(a: AppIdState, d: Date, freshLimit: int)
  {
    d in a.updates && a.updates[d] != ArchivedDate && a.updates[d] - EndOfDay(d) >= freshLimit
  }

  /** The stale dates among `ds`, in the order of `ds`. */
  function StaleDates(a: AppIdState, ds: seq<Date>, freshLimit: int): (r: seq<Date>)
    ensures forall x :: x in r <==> x in ds && Stale(a, x, freshLimit)
  {
    if ds == [] then []
    else (if Stale(a, ds[0], freshLimit) then [ds[0]] else []) + StaleDates(a, ds[1..], freshLimit)
  }

  function ArchiveRequests(appId: string, dates: seq<Date>): (r: seq<UpdateRequest>)
    ensures |r| == |dates|
    ensures forall i :: 0 <= i < |r| ==> r[i] == UpdateRequest(appId, dates[i], Archive)
  {
    if dates == [] then [] else [UpdateRequest(appId, dates[0], Archive)] + ArchiveRequests(appId, dates[1..])
  }

  predicate Distinct(ds: seq<Date>)
  {
    forall i, j :: 0 <= i < j < |ds| ==> ds[i] != ds[j]
  }

  /** Which of `ds` are stale depends only on the entries for `ds`. */
  lemma {:induction false} StaleDatesFrame(a: AppIdState, b: AppIdState, ds: seq<Date>, freshLimit: int)
    requires forall d :: d in ds ==> (d in a.updates <==> d in b.updates)
    requires forall d :: d in ds && d in a.updates ==> a.updates[d] == b.updates[d]
    ensures StaleDates(a, ds, freshLimit) == StaleDates(b, ds, freshLimit)
    decreases |ds|
  {
    if ds != [] {
      assert ds[0] in ds;
      StaleDatesFrame(a, b, ds[1..], freshLimit);
    }
  }

  /** `_archive_old_dates` yields ARCHIVE exactly for the stale dates, in the order of the
      dictionary, and sets exactly those to the archive sentinel. */
  lemma {:induction false} SweepDatesExact(st: State, idx: nat, ds: seq<Date>, freshLimit: int)
    requires idx < |st.apps| && Distinct(ds)
    ensures var a := st.apps[idx];
      var o := SweepDates(st, idx, ds, freshLimit);
      var b := o.st.apps[idx];
      && Requests(o.steps) == ArchiveRequests(a.appId, StaleDates(a, ds, freshLimit))
      && b.order == a.order && b.updates.Keys == a.updates.Keys
      && (forall d :: d in a.updates ==>
            b.updates[d] == if d in StaleDates(a, ds, freshLimit) then ArchivedDate else a.updates[d])
    decreases |ds|
  {
    var a := st.apps[idx];
    if ds != [] {
      var d0 := ds[0];
      var one := SweepOne(st, idx, d0, freshLimit);
      var a1 := one.st.apps[idx];
      var rest := ds[1..];
      assert Distinct(rest);
      assert d0 !in rest;
      SweepDatesExact(one.st, idx, rest, freshLimit);
      var r := SweepDates(one.st, idx, rest, freshLimit);
      RequestsAppend(one.steps, r.steps);
      if Stale(a, d0, freshLimit) {
        assert a1 == SetUpdate(a, d0, ArchivedDate);
        StaleDatesFrame(a, a1, rest, freshLimit);
        assert StaleDates(a, ds, freshLimit) == [d0] + StaleDates(a, rest, freshLimit);
        assert ([d0] + StaleDates(a, rest, freshLimit))[1..] == StaleDates(a, rest, freshLimit);
        assert Requests(one.steps) == [UpdateRequest(a.appId, d0, Archive)] + Requests([]);
      } else {
        assert one.st == st;
        assert StaleDates(a, ds, freshLimit) == StaleDates(a, rest, freshLimit);
      }
    }
  }

  /** After the sweep over the keys of `date_updates`, none of them is stale any more. */
  lemma SweepLeavesNothingStale(st: State, idx: nat, freshLimit: int)
    requires idx < |st.apps| && WellFormed(st.apps[idx])
    ensures var b := SweepDates(st, idx, st.apps[idx].order, freshLimit).st.apps[idx];
      forall d :: !Stale(b, d, freshLimit)
  {
    var a := st.apps[idx];
    SweepDatesExact(st, idx, a.order, freshLimit);
  }

  // ----- properties of the requests of a pass -----

  predicate OnlyArchives(steps: seq<Step>)
  {
    forall j :: 0 <= j < |steps| ==> steps[j].request.updateType == Archive
  }

  predicate AvoidsDate(steps: seq<Step>, d: Date)
  {
    forall j :: 0 <= j < |steps| ==> steps[j].request.date != d
  }

  /** LOAD or LOAD_INTO_ARCHIVE requests for dates of `ds` only. */
  predicate LoadsAmong(steps: seq<Step>, ds: seq<Date>)
  {
    forall j :: 0 <= j < |steps| ==> steps[j].request.date in ds && steps[j].request.updateType != Archive
  }

  predicate DatesAscending(steps: seq<Step>)
  {
    forall j, k :: 0 <= j < k < |steps| ==> steps[j].request.date < steps[k].request.date
  }

  lemma AppendProperties(a: seq<Step>, b: seq<Step>, d: Date, ds: seq<Date>)
    ensures OnlyArchives(a) && OnlyArchives(b) ==> OnlyArchives(a + b)
    ensures AvoidsDate(a, d) && AvoidsDate(b, d) ==> AvoidsDate(a + b, d)
    ensures LoadsAmong(a, ds) && LoadsAmong(b, ds) ==> LoadsAmong(a + b, ds)
  {
    forall j | |a| <= j < |a + b|
      ensures (a + b)[j] == b[j - |a|]
    {
    }
  }

  lemma AppendAscending(a: seq<Step>, b: seq<Step>)
    requires DatesAscending(a) && DatesAscending(b)
    requires forall j, k :: 0 <= j < |a| && 0 <= k < |b| ==> a[j].request.date < b[k].request.date
    ensures DatesAscending(a + b)
  {
    forall j, k | 0 <= j < k < |a + b|
      ensures (a + b)[j].request.date < (a + b)[k].request.date
    {
      if k >= |a| {
        assert (a + b)[k] == b[k - |a|];
        if j >= |a| {
          assert (a + b)[j] == b[j - |a|];
        }
      }
    }
  }

  // ----- dates that are left alone -----

  /** The sweep never yields an archived date again, and it stays archived. */
  lemma {:induction false} SweepSkipsArchived(st: State, idx: nat, ds: seq<Date>, freshLimit: int, d: Date)
    requires idx < |st.apps| && IsArchived(st.apps[idx], d)
    ensures var o := SweepDates(st, idx, ds, freshLimit);
      IsArchived(o.st.apps[idx], d) && AvoidsDate(o.steps, d)
    decreases |ds|
  {
    if ds != [] {
      var one := SweepOne(st, idx, ds[0], freshLimit);
      SweepSkipsArchived(one.st, idx, ds[1..], freshLimit, d);
      AppendProperties(one.steps, SweepDates(one.st, idx, ds[1..], freshLimit).steps, d, ds);
    }
  }

  /** A date whose entry lies less than `update_interval` before the start of the run gets
      no request from the window scan, and its entry is left as it was. The archive sentinel
      is such an entry for every run that starts before the year 3000. */
  lemma {:induction false} ScanSkipsRecent(st: State, idx: nat, ds: seq<Date>, startedAt: Instant,
                                           markTime: Instant, interval: int, freshLimit: int, d: Date)
    requires idx < |st.apps| && d in st.apps[idx].updates
    requires startedAt - st.apps[idx].updates[d] < interval
    ensures var o := ScanDates(st, idx, ds, startedAt, markTime, interval, freshLimit);
      && d in o.st.apps[idx].updates && o.st.apps[idx].updates[d] == st.apps[idx].updates[d]
      && AvoidsDate(o.steps, d)
    decreases |ds|
  {
    if ds != [] {
      var one := UpdateOne(st, idx, ds[0], startedAt, markTime, interval, freshLimit);
      ScanSkipsRecent(one.st, idx, ds[1..], startedAt, markTime, interval, freshLimit, d);
      AppendProperties(one.steps, ScanDates(one.st, idx, ds[1..], startedAt, markTime, interval, freshLimit).steps, d, ds);
    }
  }

  /** An archived date is never requested again by a run that starts less than
      `update_interval` after the archive sentinel (so any run before the year 3000 with a
      positive interval), and it stays archived. */
  lemma ArchivedNeverRequested(st: State, appId: string, i: nat, d: Date, startedAt: Instant,
                               markTime: Instant, limit: int, interval: int, freshLimit: int)
    requires FirstIndexOf(st.apps, appId) == Some(i) && IsArchived(st.apps[i], d)
    requires startedAt - ArchivedDate < interval
    ensures var o := ProcessApp(st, appId, startedAt, markTime, limit, interval, freshLimit);
      i < |o.st.apps| && IsArchived(o.st.apps[i], d) && AvoidsDate(o.steps, d)
  {
    var o1 := SweepDates(st, i, st.apps[i].order, freshLimit);
    SweepSkipsArchived(st, i, st.apps[i].order, freshLimit, d);
    var ds := Window(DateOf(startedAt), limit);
    ScanSkipsRecent(o1.st, i, ds, startedAt, markTime, interval, freshLimit, d);
    AppendProperties(o1.steps, ScanDates(o1.st, i, ds, startedAt, markTime, interval, freshLimit).steps, d, ds);
  }

  // ----- the order of the requests -----

  predicate Ascending(ds: seq<Date>)
  {
    forall i, j :: 0 <= i < j < |ds| ==> ds[i] < ds[j]
  }

  /** The sweep yields only ARCHIVE requests. */
  lemma {:induction false} SweepOnlyArchives(st: State, idx: nat, ds: seq<Date>, freshLimit: int)
    requires idx < |st.apps|
    ensures OnlyArchives(SweepDates(st, idx, ds, freshLimit).steps)
    decreases |ds|
  {
    if ds != [] {
      var one := SweepOne(st, idx, ds[0], freshLimit);
      SweepOnlyArchives(one.st, idx, ds[1..], freshLimit);
      AppendProperties(one.steps, SweepDates(one.st, idx, ds[1..], freshLimit).steps, 0, ds);
    }
  }

  /** Over ascending dates, the window scan yields LOAD or LOAD_INTO_ARCHIVE requests for
      dates of the window, at most one per date, in ascending date order. */
  lemma {:induction false} ScanAscending(st: State, idx: nat, ds: seq<Date>, startedAt: Instant,
                                         markTime: Instant, interval: int, freshLimit: int)
    requires idx < |st.apps| && Ascending(ds)
    ensures var o := ScanDates(st, idx, ds, startedAt, markTime, interval, freshLimit);
      LoadsAmong(o.steps, ds) && DatesAscending(o.steps)
    decreases |ds|
  {
    if ds != [] {
      var one := UpdateOne(st, idx, ds[0], startedAt, markTime, interval, freshLimit);
      UpdateOneLoads(st, idx, ds[0], startedAt, markTime, interval, freshLimit);
      ScanAscending(one.st, idx, ds[1..], startedAt, markTime, interval, freshLimit);
      var rest := ScanDates(one.st, idx, ds[1..], startedAt, markTime, interval, freshLimit).steps;
      AscendingJoin(one.steps, rest, ds);
    }
  }

  /** The window scan yields at most one request for a date, a LOAD or LOAD_INTO_ARCHIVE
      for that date. */
  lemma UpdateOneLoads(st: State, idx: nat, d: Date, startedAt: Instant, markTime: Instant,
                       interval: int, freshLimit: int)
    requires idx < |st.apps|
    ensures var o := UpdateOne(st, idx, d, startedAt, markTime, interval, freshLimit);
      |o.steps| <= 1 && LoadsAmong(o.steps, [d])
  {
  }

  /** The sequence reasoning of `ScanAscending`: the request for the first date, if any,
      followed by requests for later dates in ascending order. */
  lemma AscendingJoin(first: seq<Step>, rest: seq<Step>, ds: seq<Date>)
    requires ds != [] && Ascending(ds)
    requires |first| <= 1 && LoadsAmong(first, [ds[0]])
    requires LoadsAmong(rest, ds[1..]) && DatesAscending(rest)
    ensures LoadsAmong(first + rest, ds) && DatesAscending(first + rest)
  {
    var tail := ds[1..];
    forall j, k | 0 <= j < |first| && 0 <= k < |rest|
      ensures first[j].request.date < rest[k].request.date
    {
      assert rest[k].request.date in tail;
      var m :| 0 <= m < |tail| && tail[m] == rest[k].request.date;
      assert ds[m + 1] == tail[m];
    }
    assert LoadsAmong(rest, ds) by {
      forall j | 0 <= j < |rest|
        ensures rest[j].request.date in ds
      {
        assert rest[j].request.date in tail;
        var m :| 0 <= m < |tail| && tail[m] == rest[j].request.date;
        assert ds[m + 1] == tail[m];
      }
    }
    assert LoadsAmong(first, ds);
    AppendProperties(first, rest, 0, ds);
    AppendAscending(first, rest);
  }

  /** `update_requests` for one application: all its ARCHIVE requests come first, then the
      window dates in ascending order, all inside `[date_to - update_limit, date_to]`. */
  lemma ProcessAppOrder(st: State, appId: string, startedAt: Instant, markTime: Instant,
                        limit: int, interval: int, freshLimit: int)
    ensures var o := ProcessApp(st, appId, startedAt, markTime, limit, interval, freshLimit);
      var today := DateOf(startedAt);
      && (forall j, k :: 0 <= j < k < |o.steps| && o.steps[k].request.updateType == Archive ==>
            o.steps[j].request.updateType == Archive)
      && (forall j, k :: 0 <= j < k < |o.steps| && o.steps[j].request.updateType != Archive ==>
            o.steps[j].request.date < o.steps[k].request.date)
      && (forall j :: 0 <= j < |o.steps| && o.steps[j].request.updateType != Archive ==>
            today - limit <= o.steps[j].request.date <= today)
  {
    var (idx, st1) := GetOrCreate(st, appId);
    var s1 := SweepDates(st1, idx, st1.apps[idx].order, freshLimit);
    SweepOnlyArchives(st1, idx, st1.apps[idx].order, freshLimit);
    var ds := Window(DateOf(startedAt), limit);
    ScanAscending(s1.st, idx, ds, startedAt, markTime, interval, freshLimit);
    var s2 := ScanDates(s1.st, idx, ds, startedAt, markTime, interval, freshLimit).steps;
    WindowOrderFacts(s1.steps, s2, ds, DateOf(startedAt) - limit, DateOf(startedAt));
  }

  /** The sequence reasoning of `ProcessAppOrder`. */
  lemma WindowOrderFacts(archives: seq<Step>, loads: seq<Step>, ds: seq<Date>, lo: Date, hi: Date)
    requires OnlyArchives(archives) && LoadsAmong(loads, ds) && DatesAscending(loads)
    requires forall i :: 0 <= i < |ds| ==> lo <= ds[i] <= hi
    ensures var all := archives + loads;
      && (forall j, k :: 0 <= j < k < |all| && all[k].request.updateType == Archive ==>
            all[j].request.updateType == Archive)
      && (forall j, k :: 0 <= j < k < |all| && all[j].request.updateType != Archive ==>
            all[j].request.date < all[k].request.date)
      && (forall j :: 0 <= j < |all| && all[j].request.updateType != Archive ==>
            lo <= all[j].request.date <= hi)
  {
    var all := archives + loads;
    forall j | |archives| <= j < |all|
      ensures all[j] == loads[j - |archives|]
    {
    }
  }

  // ----- one date of the window -----

  /** `_update_date` yields nothing exactly when the date was updated less than
      `update_interval` before the run started; otherwise one request, LOAD (re-stamped with
      the mark time) when the entry, or the start of the run for a new date, lies within
      `fresh_limit` of the day's last instant, else LOAD_INTO_ARCHIVE (set to the sentinel).
      The state saved by the mark is the state the pass goes on with. */
  lemma UpdateOneClassifies(st: State, idx: nat, d: Date, startedAt: Instant, markTime: Instant,
                            interval: int, freshLimit: int)
    requires idx < |st.apps|
    ensures var a := st.apps[idx];
      var o := UpdateOne(st, idx, d, startedAt, markTime, interval, freshLimit);
      var base := if d in a.updates then a.updates[d] else startedAt;
      var isFresh := base - EndOfDay(d) < freshLimit;
      && |o.steps| <= 1
      && (|o.steps| == 0 <==> d in a.updates && startedAt - a.updates[d] < interval)
      && (|o.steps| == 0 ==> o.st == st)
      && (|o.steps| == 1 ==>
            && o.steps[0].request == UpdateRequest(a.appId, d, if isFresh then Load else LoadIntoArchive)
            && o.st.apps[idx].updates == a.updates[d := if isFresh then markTime else ArchivedDate]
            && o.steps[0].after == o.st)
  {
  }

  /** Likewise one date of `_archive_old_dates`: a request exactly for a stale date. */
  lemma SweepOneClassifies(st: State, idx: nat, d: Date, freshLimit: int)
    requires idx < |st.apps|
    ensures var a := st.apps[idx];
      var o := SweepOne(st, idx, d, freshLimit);
      && |o.steps| <= 1
      && (|o.steps| == 1 <==> Stale(a, d, freshLimit))
      && (|o.steps| == 0 ==> o.st == st)
      && (|o.steps| == 1 ==>
            && o.steps[0].request == UpdateRequest(a.appId, d, Archive)
            && o.st.apps[idx].updates == a.updates[d := ArchivedDate]
            && o.st.apps[idx].order == a.order
            && o.steps[0].after == o.st)
  {
  }
}
