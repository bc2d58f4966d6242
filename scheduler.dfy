/** The scheduler of `updater/scheduler.py`: one run loads the state, waits out the update
    interval, then for every application sweeps old dates into the archive and scans the
    window `[today - update_limit, today]`, yielding requests; every request is marked in the
    state (and the state saved) only after its consumer has handled it, and the run is
    stamped finished only once every request has been handled. */
module Scheduling {
  import opened Common
  import opened Calendar

  datatype UpdateType = Archive | Load | LoadIntoArchive

  datatype UpdateRequest = UpdateRequest(appId: string, date: Date, updateType: UpdateType)

  /** The per-application state the scheduler keeps: `date_updates` is a dictionary, so its
      keys are kept in insertion order (`order`) beside the values (`updates`). */
  datatype AppIdState = AppIdState(appId: string, order: seq<Date>, updates: map<Date, Instant>)

  datatype State = State(lastUpdateTime: Option<Instant>, apps: seq<AppIdState>)

  /** The keys of `date_updates` are listed once each, in `order`. */
  ghost predicate WellFormed(a: AppIdState)
  {
    && (forall i, j :: 0 <= i < j < |a.order| ==> a.order[i] != a.order[j])
    && (forall d :: d in a.updates <==> d in a.order)
  }

  /** `date_updates[d] = t`: an existing key keeps its place, a new key goes last. */
  function SetUpdate(a: AppIdState, d: Date, t: Instant): (r: AppIdState)
    ensures WellFormed(a) ==> WellFormed(r)
    ensures r.appId == a.appId && r.updates == a.updates[d := t]
  {
    AppIdState(a.appId, if d in a.updates then a.order else a.order + [d], a.updates[d := t])
  }

  predicate IsArchived(a: AppIdState, d: Date)
  {
    d in a.updates && a.updates[d] == ArchivedDate
  }

  // ----- the wait gate -----

  /** `_wait_time`: how long to sleep before a run may start, `None` for not at all. */
  function WaitTime(last: Option<Instant>, interval: int, now: Instant): (r: Option<int>)
    ensures r.Some? ==> r.value >= 0
  {
    if last.None? then None
    else
      var delta := last.value - now + interval;
      if delta < 0 then None else Some(delta)
  }

  /** The clock reading after the wait gate: `now` plus the wait, if any. */
  function StartTime(last: Option<Instant>, interval: int, now: Instant): Instant
  {
    match WaitTime(last, interval, now)
    case None => now
    case Some(w) => now + w
  }

  /** A run starts no earlier than asked, and no earlier than `update_interval` after the
      previous run finished; when it must wait, it starts exactly at that deadline. */
  lemma WaitGate(last: Option<Instant>, interval: int, now: Instant)
    ensures WaitTime(last, interval, now).None? <==> (last.None? || last.value + interval < now)
    ensures StartTime(last, interval, now) >= now
    ensures last.Some? ==> StartTime(last, interval, now) >= last.value + interval
    ensures last.Some? && now <= last.value + interval ==>
              StartTime(last, interval, now) == last.value + interval
  {
  }

  // ----- one run, as a sequence of steps -----

  /** A request together with the state right after it was marked (and saved). */
  datatype Step = Step(request: UpdateRequest, after: State)

  /** Steps produced, and the in-memory state they leave. */
  datatype Outcome = Outcome(steps: seq<Step>, st: State)

  /** The requests of the steps, in order. */
  function Requests(steps: seq<Step>): (r: seq<UpdateRequest>)
    ensures |r| == |steps|
  {
    if steps == [] then [] else [steps[0].request] + Requests(steps[1..])
  }

  lemma {:induction false} RequestsAppend(a: seq<Step>, b: seq<Step>)
    ensures Requests(a + b) == Requests(a) + Requests(b)
  {
    if a == [] {
      assert a + b == b;
    } else {
      assert (a + b)[0] == a[0];
      assert (a + b)[1..] == a[1..] + b;
      RequestsAppend(a[1..], b);
    }
  }

  function Then(steps: seq<Step>, o: Outcome): Outcome
  {
    Outcome(steps + o.steps, o.st)
  }

  /** The state the storage holds after the first `k` steps were marked: the state saved by
      the `k`-th mark, or what it held before when there was none. */
  function LastSaved(prev: State, steps: seq<Step>, k: nat): State
    requires k <= |steps|
  {
    if k == 0 then prev else steps[k - 1].after
  }

  /** Yield `req`, then replace the application's state by `a` (the mark). */
  function Emit(st: State, idx: nat, req: UpdateRequest, a: AppIdState): (o: Outcome)
    requires idx < |st.apps|
    ensures |o.st.apps| == |st.apps|
  {
    var st' := st.(apps := st.apps[idx := a]);
    Outcome([Step(req, st')], st')
  }

  /** What the step for one date of one application may do: yield at most one request,
      for that application and date, whose mark sets that date's entry and nothing else;
      with no request nothing changes. */
  predicate DateStep(st: State, idx: nat, d: Date, o: Outcome)
    requires idx < |st.apps|
  {
    && |o.steps| <= 1 && |o.st.apps| == |st.apps|
    && (o.steps == [] ==> o.st == st)
    && o.st.lastUpdateTime == st.lastUpdateTime
    && (forall j :: 0 <= j < |st.apps| && j != idx ==> o.st.apps[j] == st.apps[j])
    && o.st.apps[idx].appId == st.apps[idx].appId
    && forall k :: 0 <= k < |o.steps| ==>
         && o.steps[k].request.appId == st.apps[idx].appId && o.steps[k].request.date == d
         && o.steps[k].after == o.st && d in o.st.apps[idx].updates
         && o.st.apps[idx].updates == st.apps[idx].updates[d := o.st.apps[idx].updates[d]]
  }

  /** One item of `_archive_old_dates`. */
  function SweepOne(st: State, idx: nat, d: Date, freshLimit: int): (o: Outcome)
    requires idx < |st.apps|
    ensures |o.st.apps| == |st.apps|
    ensures DateStep(st, idx, d, o)
    ensures forall k :: 0 <= k < |o.steps| ==>
              o.steps[k].request.updateType == Archive && o.st.apps[idx].updates[d] == ArchivedDate
  {
    var a := st.apps[idx];
    if d !in a.updates || IsArchived(a, d) then Outcome([], st)
    else if a.updates[d] - EndOfDay(d) < freshLimit then Outcome([], st)
    else Emit(st, idx, UpdateRequest(a.appId, d, Archive), SetUpdate(a, d, ArchivedDate))
  }

  /** `_archive_old_dates` over the dates `ds` (the keys of `date_updates`, in order). */
  function SweepDates(st: State, idx: nat, ds: seq<Date>, freshLimit: int): (o: Outcome)
    requires idx < |st.apps|
    ensures |o.st.apps| == |st.apps|
    decreases |ds|
  {
    if ds == [] then Outcome([], st)
    else
      var o := SweepOne(st, idx, ds[0], freshLimit);
      Then(o.steps, SweepDates(o.st, idx, ds[1..], freshLimit))
  }

  /** `_update_date`: nothing while the date was updated less than `interval` ago; else LOAD
      (stamped with `markTime`) while the date is within `freshLimit` of its end, else
      LOAD_INTO_ARCHIVE (stamped with the archive sentinel). */
  function UpdateOne(st: State, idx: nat, d: Date, startedAt: Instant, markTime: Instant,
                      interval: int, freshLimit: int): (o: Outcome)
    requires idx < |st.apps|
    ensures |o.st.apps| == |st.apps|
    ensures DateStep(st, idx, d, o)
  {
    var a := st.apps[idx];
    if d in a.updates && startedAt - a.updates[d] < interval then Outcome([], st)
    else
      var base := if d in a.updates then a.updates[d] else startedAt;
      if base - EndOfDay(d) < freshLimit then
        Emit(st, idx, UpdateRequest(a.appId, d, Load), SetUpdate(a, d, markTime))
      else
        Emit(st, idx, UpdateRequest(a.appId, d, LoadIntoArchive), SetUpdate(a, d, ArchivedDate))
  }

  function ScanDates(st: State, idx: nat, ds: seq<Date>, startedAt: Instant, markTime: Instant,
                     interval: int, freshLimit: int): (o: Outcome)
    requires idx < |st.apps|
    ensures |o.st.apps| == |st.apps|
    decreases |ds|
  {
    if ds == [] then Outcome([], st)
    else
      var o := UpdateOne(st, idx, ds[0], startedAt, markTime, interval, freshLimit);
      Then(o.steps, ScanDates(o.st, idx, ds[1..], startedAt, markTime, interval, freshLimit))
  }

  function FirstIndexOf(apps: seq<AppIdState>, appId: string): (r: Option<nat>)
    ensures r.Some? ==> r.value < |apps| && apps[r.value].appId == appId
    ensures r.Some? ==> forall j :: 0 <= j < r.value ==> apps[j].appId != appId
    ensures r.None? ==> forall j :: 0 <= j < |apps| ==> apps[j].appId != appId
  {
    if |apps| == 0 then None
    else if apps[0].appId == appId then Some(0)
    else match FirstIndexOf(apps[1..], appId)
      case None => None
      case Some(i) => Some(i + 1)
  }

  /** `_get_or_create_app_id_state`: the index of the first state for `appId`, appending a
      fresh one when there is none. */
  function GetOrCreate(st: State, appId: string): (r: (nat, State))
    ensures var (i, st') := r;
      && i < |st'.apps| && st'.apps[i].appId == appId
      && (forall j :: 0 <= j < i ==> st'.apps[j].appId != appId)
      && st'.lastUpdateTime == st.lastUpdateTime
      && (if exists j :: 0 <= j < |st.apps| && st.apps[j].appId == appId
          then st' == st
          else st'.apps == st.apps + [AppIdState(appId, [], map[])])
  {
    match FirstIndexOf(st.apps, appId)
    case Some(i) => (i, st)
    case None => (|st.apps|, st.(apps := st.apps + [AppIdState(appId, [], map[])]))
  }

  /** All the requests of one application: the archive sweep, then the window scan. */
  function ProcessApp(st: State, appId: string, startedAt: Instant, markTime: Instant,
                      limit: int, interval: int, freshLimit: int): (o: Outcome)
  {
    var (idx, st1) := GetOrCreate(st, appId);
    var o1 := SweepDates(st1, idx, st1.apps[idx].order, freshLimit);
    var o2 := ScanDates(o1.st, idx, Window(DateOf(startedAt), limit), startedAt, markTime,
                        interval, freshLimit);
    Outcome(o1.steps + o2.steps, o2.st)
  }

  function ProcessApps(st: State, appIds: seq<string>, startedAt: Instant, markTime: Instant,
                       limit: int, interval: int, freshLimit: int): Outcome
    decreases |appIds|
  {
    if appIds == [] then Outcome([], st)
    else
      var o := ProcessApp(st, appIds[0], startedAt, markTime, limit, interval, freshLimit);
      Then(o.steps, ProcessApps(o.st, appIds[1..], startedAt, markTime, limit, interval, freshLimit))
  }

  lemma ThenAssoc(a: seq<Step>, b: seq<Step>, o: Outcome)
    ensures Then(a, Then(b, o)) == Then(a + b, o)
  {
  }

  lemma SweepUnfold(st: State, idx: nat, ds: seq<Date>, i: nat, freshLimit: int)
    requires idx < |st.apps| && i < |ds|
    ensures var one := SweepOne(st, idx, ds[i], freshLimit);
      SweepDates(st, idx, ds[i..], freshLimit)
        == Then(one.steps, SweepDates(one.st, idx, ds[i + 1..], freshLimit))
  {
    assert ds[i..][1..] == ds[i + 1..];
  }

  lemma RequestsOfSingle(done: seq<Step>, one: seq<Step>)
    requires |one| == 1
    ensures Requests(done + one) == Requests(done) + [one[0].request]
  {
    RequestsAppend(done, one);
    assert Requests(one) == [one[0].request] + Requests([]);
  }

  /** The step of `one` was handled and marked. */
  lemma Advanced(full: Outcome, done: seq<Step>, one: Outcome, rest: Outcome, prev: State)
    requires full == Then(done, Then(one.steps, rest)) && |one.steps| == 1
    ensures full == Then(done + one.steps, rest)
    ensures Requests(done + one.steps) == Requests(done) + [one.steps[0].request]
    ensures LastSaved(prev, done + one.steps, |done + one.steps|) == one.steps[0].after
  {
    RequestsOfSingle(done, one.steps);
  }

  lemma Skipped(full: Outcome, done: seq<Step>, one: Outcome, rest: Outcome)
    requires full == Then(done, Then(one.steps, rest)) && one.steps == []
    ensures full == Then(done, rest)
  {
    assert one.steps + rest.steps == rest.steps;
  }

  lemma ScanUnfold(st: State, idx: nat, ds: seq<Date>, i: nat, startedAt: Instant,
                    markTime: Instant, interval: int, freshLimit: int)
    requires idx < |st.apps| && i < |ds|
    ensures var one := UpdateOne(st, idx, ds[i], startedAt, markTime, interval, freshLimit);
      ScanDates(st, idx, ds[i..], startedAt, markTime, interval, freshLimit)
        == Then(one.steps, ScanDates(one.st, idx, ds[i + 1..], startedAt, markTime, interval, freshLimit))
  {
    assert ds[i..][1..] == ds[i + 1..];
  }

  lemma ProcessAppsUnfold(st: State, appIds: seq<string>, i: nat, startedAt: Instant, markTime: Instant,
                           limit: int, interval: int, freshLimit: int)
    requires i < |appIds|
    ensures var one := ProcessApp(st, appIds[i], startedAt, markTime, limit, interval, freshLimit);
      ProcessApps(st, appIds[i..], startedAt, markTime, limit, interval, freshLimit)
        == Then(one.steps, ProcessApps(one.st, appIds[i + 1..], startedAt, markTime, limit, interval, freshLimit))
  {
    assert appIds[i..][1..] == appIds[i + 1..];
  }

  /** Every request of `part`, which follows `done`, was handled and marked. */
  lemma CompletedPart(done: seq<Step>, part: seq<Step>, prev: State)
    ensures Requests(done + part) == Requests(done) + Requests(part)
    ensures LastSaved(prev, done + part, |done + part|) == LastSaved(LastSaved(prev, done, |done|), part, |part|)
  {
    RequestsAppend(done, part);
    if |part| == 0 {
      assert done + part == done;
    }
  }

  class Scheduler {
    const appIds: seq<string>
    /** `update_limit`, in days */
    const updateLimit: int
    /** `update_interval` and `fresh_limit`, in microseconds */
    const updateInterval: int
    const freshLimit: int

    /** `self._state` */
    var state: State
    /** what the state storage holds: the state as of the last save */
    var stored: State

    constructor (storage: State, appIds: seq<string>, updateLimit: int, updateInterval: int,
                 freshLimit: int)
      ensures this.appIds == appIds && this.updateLimit == updateLimit
      ensures this.updateInterval == updateInterval && this.freshLimit == freshLimit
      ensures stored == storage
    {
      this.appIds := appIds;
      this.updateLimit := updateLimit;
      this.updateInterval := updateInterval;
      this.freshLimit := freshLimit;
      state := State(None, []);
      stored := storage;
    }

    /** `_get_or_create_app_id_state` */
    method GetOrCreateAppIdState(appId: string) returns (idx: nat)
      modifies this
      ensures (idx, state) == GetOrCreate(old(state), appId)
      ensures stored == old(stored)
    {
      var i := 0;
      while i < |state.apps| && state.apps[i].appId != appId
        invariant 0 <= i <= |state.apps|
        invariant forall j :: 0 <= j < i ==> state.apps[j].appId != appId
        invariant state == old(state) && stored == old(stored)
      {
        i := i + 1;
      }
      if i == |state.apps| {
        state := state.(apps := state.apps + [AppIdState(appId, [], map[])]);
      }
      idx := i;
    }

    /** `_mark_date_updated` */
    method MarkDateUpdated(idx: nat, d: Date, now: Instant)
      requires idx < |state.apps|
      modifies this
      ensures state == old(state).(apps := old(state).apps[idx := SetUpdate(old(state).apps[idx], d, now)])
      ensures stored == state
    {
      state := state.(apps := state.apps[idx := SetUpdate(state.apps[idx], d, now)]);
      stored := state;
    }

    /** `_mark_date_archived` */
    method MarkDateArchived(idx: nat, d: Date)
      requires idx < |state.apps|
      modifies this
      ensures state == old(state).(apps := old(state).apps[idx := SetUpdate(old(state).apps[idx], d, ArchivedDate)])
      ensures stored == state
    {
      state := state.(apps := state.apps[idx := SetUpdate(state.apps[idx], d, ArchivedDate)]);
      stored := state;
    }

    /** `_is_date_archived`: the test that the archived-date lemmas of the scheduler are
        stated over (`IsArchived`). */
    function IsDateArchived(idx: nat, d: Date): (r: bool)
      requires idx < |state.apps|
      reads this
      ensures r == IsArchived(state.apps[idx], d)
    {
      d in state.apps[idx].updates && state.apps[idx].updates[d] == ArchivedDate
    }

    /** `_finish_updates` */
    method FinishUpdates(now: Instant)
      modifies this
      ensures state == old(state).(lastUpdateTime := Some(now)) && stored == state
    {
      state := state.(lastUpdateTime := Some(now));
      stored := state;
    }

    /** One item of `_archive_old_dates`: a date that is not archived and whose stored update
        time lies at least `fresh_limit` after the end of the day is yielded for ARCHIVE, then
        marked archived. */
    method ArchiveIfOld(idx: nat, d: Date) returns (emitted: Option<UpdateRequest>)
      requires idx < |state.apps|
      modifies this
      ensures var o := SweepOne(old(state), idx, d, freshLimit);
        && |o.steps| <= 1
        && emitted == (if |o.steps| == 0 then None else Some(o.steps[0].request))
        && state == o.st && stored == LastSaved(old(stored), o.steps, |o.steps|)
    {
      var a := state.apps[idx];
      if d !in a.updates || IsDateArchived(idx, d) {
        return None;
      }
      var isFresh := a.updates[d] - EndOfDay(d) < freshLimit;
      if isFresh {
        return None;
      }
      emitted := Some(UpdateRequest(a.appId, d, Archive));
      MarkDateArchived(idx, d);
    }

    /** `_archive_old_dates`, over the keys of `date_updates` in insertion order. */
    method ArchiveOldDates(idx: nat) returns (emitted: seq<UpdateRequest>)
      requires idx < |state.apps|
      modifies this
      ensures var o := SweepDates(old(state), idx, old(state).apps[idx].order, freshLimit);
        && emitted == Requests(o.steps) && state == o.st
        && stored == LastSaved(old(stored), o.steps, |o.steps|)
    {
      ghost var stored0 := stored;
      var ds := state.apps[idx].order;
      ghost var full := SweepDates(state, idx, ds, freshLimit);
      ghost var done: seq<Step> := [];
      emitted := [];
      var i := 0;
      while i < |ds|
        invariant 0 <= i <= |ds| && idx < |state.apps|
        invariant full == Then(done, SweepDates(state, idx, ds[i..], freshLimit))
        invariant emitted == Requests(done)
        invariant stored == LastSaved(stored0, done, |done|)
      {
        SweepUnfold(state, idx, ds, i, freshLimit);
        ghost var one := SweepOne(state, idx, ds[i], freshLimit);
        ghost var rest := SweepDates(one.st, idx, ds[i + 1..], freshLimit);
        var req := ArchiveIfOld(idx, ds[i]);
        if req.Some? {
          Advanced(full, done, one, rest, stored0);
          done := done + one.steps;
          emitted := emitted + [req.value];
        } else {
          assert done + one.steps == done;
        }
        i := i + 1;
      }
      assert ds[i..] == [];
      assert done + [] == done;
    }

    /** `_update_date` */
    method UpdateDate(idx: nat, d: Date, startedAt: Instant, markTime: Instant)
      returns (emitted: Option<UpdateRequest>)
      requires idx < |state.apps|
      modifies this
      ensures var o := UpdateOne(old(state), idx, d, startedAt, markTime, updateInterval, freshLimit);
        && |o.steps| <= 1
        && emitted == (if |o.steps| == 0 then None else Some(o.steps[0].request))
        && state == o.st && stored == LastSaved(old(stored), o.steps, |o.steps|)
    {
      var a := state.apps[idx];
      if d in a.updates {
        var updated := startedAt - a.updates[d] < updateInterval;
        if updated {
          return None;
        }
      }
      var lastEventDelta := (if d in a.updates then a.updates[d] else startedAt) - EndOfDay(d);
      var isFresh := lastEventDelta < freshLimit;
      if isFresh {
        emitted := Some(UpdateRequest(a.appId, d, Load));
        MarkDateUpdated(idx, d, markTime);
      } else {
        emitted := Some(UpdateRequest(a.appId, d, LoadIntoArchive));
        MarkDateArchived(idx, d);
      }
    }

    /** The window loop of `update_requests`: `_update_date` for every date of `ds` in turn. */
    method UpdateWindow(idx: nat, ds: seq<Date>, startedAt: Instant, markTime: Instant)
      returns (emitted: seq<UpdateRequest>)
      requires idx < |state.apps|
      modifies this
      ensures var o := ScanDates(old(state), idx, ds, startedAt, markTime, updateInterval, freshLimit);
        && emitted == Requests(o.steps) && state == o.st
        && stored == LastSaved(old(stored), o.steps, |o.steps|)
    {
      ghost var stored0 := stored;
      ghost var full := ScanDates(state, idx, ds, startedAt, markTime, updateInterval, freshLimit);
      ghost var done: seq<Step> := [];
      emitted := [];
      var i := 0;
      while i < |ds|
        invariant 0 <= i <= |ds| && idx < |state.apps|
        invariant full == Then(done, ScanDates(state, idx, ds[i..], startedAt, markTime, updateInterval, freshLimit))
        invariant emitted == Requests(done)
        invariant stored == LastSaved(stored0, done, |done|)
      {
        ScanUnfold(state, idx, ds, i, startedAt, markTime, updateInterval, freshLimit);
        ghost var one := UpdateOne(state, idx, ds[i], startedAt, markTime, updateInterval, freshLimit);
        ghost var rest := ScanDates(one.st, idx, ds[i + 1..], startedAt, markTime, updateInterval, freshLimit);
        var req := UpdateDate(idx, ds[i], startedAt, markTime);
        if req.Some? {
          Advanced(full, done, one, rest, stored0);
          done := done + one.steps;
          emitted := emitted + [req.value];
        } else {
          Skipped(full, done, one, rest);
        }
        assert full == Then(done, rest);
        i := i + 1;
      }
      assert ds[i..] == [];
      assert done + [] == done;
    }

    /** The body of the application loop of `update_requests`: the archive sweep, then the
        window `[date_to - update_limit, date_to]` with `date_to` the day the run started.
        When `date_to - update_limit` leaves years 1 to 9999 it raises `OverflowError` right
        after the application's state was found or created, before any request (`!ok`). */
    method UpdateApp(appId: string, startedAt: Instant, markTime: Instant)
      returns (emitted: seq<UpdateRequest>, ok: bool)
      modifies this
      ensures ok <==> ValidDate(DateOf(startedAt) - updateLimit)
      ensures !ok ==> emitted == [] && state == GetOrCreate(old(state), appId).1 && stored == old(stored)
      ensures ok ==> var o := ProcessApp(old(state), appId, startedAt, markTime, updateLimit, updateInterval, freshLimit);
        && emitted == Requests(o.steps) && state == o.st
        && stored == LastSaved(old(stored), o.steps, |o.steps|)
    {
      ghost var s0 := state;
      var idx := GetOrCreateAppIdState(appId);
      var dateTo := DateOf(startedAt);
      if !ValidDate(dateTo - updateLimit) {
        return [], false;
      }
      ghost var o1 := SweepDates(state, idx, state.apps[idx].order, freshLimit);
      var e1 := ArchiveOldDates(idx);
      var e2 := UpdateWindow(idx, Window(dateTo, updateLimit), startedAt, markTime);
      CompletedPart(o1.steps, ScanDates(o1.st, idx, Window(dateTo, updateLimit), startedAt, markTime,
                                        updateInterval, freshLimit).steps, old(stored));
      emitted, ok := e1 + e2, true;
    }

    /** The application loop of `update_requests`. The window does not depend on the
        application, so an `OverflowError` comes at the first one, and nothing was yielded
        or saved; without applications there is no window to compute. */
    method UpdateApps(startedAt: Instant, markTime: Instant) returns (requests: seq<UpdateRequest>, ok: bool)
      modifies this
      ensures ok <==> appIds == [] || ValidDate(DateOf(startedAt) - updateLimit)
      ensures !ok ==> requests == [] && state == GetOrCreate(old(state), appIds[0]).1 && stored == old(stored)
      ensures ok ==> var o := ProcessApps(old(state), appIds, startedAt, markTime, updateLimit, updateInterval, freshLimit);
        && requests == Requests(o.steps) && state == o.st
        && stored == LastSaved(old(stored), o.steps, |o.steps|)
    {
      ghost var stored0 := stored;
      ghost var full := ProcessApps(state, appIds, startedAt, markTime, updateLimit, updateInterval, freshLimit);
      ghost var done: seq<Step> := [];
      requests := [];
      var i := 0;
      while i < |appIds|
        invariant 0 <= i <= |appIds|
        invariant i > 0 ==> ValidDate(DateOf(startedAt) - updateLimit)
        invariant i == 0 ==> state == old(state) && stored == old(stored)
        invariant full == Then(done, ProcessApps(state, appIds[i..], startedAt, markTime, updateLimit, updateInterval, freshLimit))
        invariant requests == Requests(done)
        invariant stored == LastSaved(stored0, done, |done|)
      {
        ProcessAppsUnfold(state, appIds, i, startedAt, markTime, updateLimit, updateInterval, freshLimit);
        ghost var one := ProcessApp(state, appIds[i], startedAt, markTime, updateLimit, updateInterval, freshLimit);
        ghost var rest := ProcessApps(one.st, appIds[i + 1..], startedAt, markTime, updateLimit, updateInterval, freshLimit);
        ThenAssoc(done, one.steps, rest);
        var e, appOk := UpdateApp(appIds[i], startedAt, markTime);
        if !appOk {
          return [], false;
        }
        CompletedPart(done, one.steps, stored0);
        done := done + one.steps;
        requests := requests + e;
        i := i + 1;
      }
      assert appIds[i..] == [];
      assert done + [] == done;
      ok := true;
    }

    /** `update_requests` together with the loop that consumes it: the state is loaded, the
        run waits out the update interval, the requests of every application are yielded,
        each marked once its consumer is done with it, and the run is stamped finished. A
        window outside years 1 to 9999 ends the run with `OverflowError` before any request:
        nothing is saved and the run is not stamped (`!ok`). */
    method UpdateRequests(now: Instant, markTime: Instant) returns (requests: seq<UpdateRequest>, ok: bool)
      modifies this
      ensures var startedAt := StartTime(old(stored).lastUpdateTime, updateInterval, now);
        ok <==> appIds == [] || ValidDate(DateOf(startedAt) - updateLimit)
      ensures !ok ==> requests == [] && stored == old(stored) && state == GetOrCreate(old(stored), appIds[0]).1
      ensures ok ==> var startedAt := StartTime(old(stored).lastUpdateTime, updateInterval, now);
        var o := ProcessApps(old(stored), appIds, startedAt, markTime, updateLimit, updateInterval, freshLimit);
        && requests == Requests(o.steps)
        && state == o.st.(lastUpdateTime := Some(markTime)) && stored == state
    {
      state := stored;
      var startedAt := now;
      var wait := WaitTime(state.lastUpdateTime, updateInterval, now);
      if wait.Some? {
        startedAt := now + wait.value;
      }
      ghost var o := ProcessApps(state, appIds, startedAt, markTime, updateLimit, updateInterval, freshLimit);
      requests, ok := UpdateApps(startedAt, markTime);
      if !ok {
        return;
      }
      assert requests == Requests(o.steps) && state == o.st;
      FinishUpdates(markTime);
    }
  }
}
