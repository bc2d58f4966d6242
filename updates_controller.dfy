/** `updater/updates_controller.py`: the loop that takes the scheduler's update requests and
    passes each one to the updater once per configured source.

    The controller calls `Updater.update(source, app_id, date, table_suffix)` and
    `Updater.archive(source, table_suffix)`; `updater/updater.py` has neither of these
    signatures, so the calls are recorded, in order, and not given a meaning. */
module UpdatesControlling {
  import opened Common
  import opened Calendar
  import opened Scheduling
  import opened UpdaterPipeline

  /** `UpdateRequest.ARCHIVE`, `UpdateRequest.LOAD`, `UpdateRequest.LOAD_INTO_ARCHIVE` */
  const ArchiveName: string := "archive"
  const LoadName: string := "load"
  const LoadIntoArchiveName: string := "load_into_archive"

  /** An update request as the controller reads it: the type is the string the request
      carries. */
  datatype Request = Request(appId: string, date: Date, updateType: string)

  /** The string the scheduler puts in a request of each type. */
  function TypeName(t: UpdateType): string
  {
    match t
    case Archive => ArchiveName
    case Load => LoadName
    case LoadIntoArchive => LoadIntoArchiveName
  }

  function FromScheduler(r: UpdateRequest): Request
  {
    Request(r.appId, r.date, TypeName(r.updateType))
  }

  /** The table a call names: the day's partition (`_table_suffix(app_id, date)`) or the
      archive table (`DbController.ARCHIVE_SUFFIX`, whose text `updater/db_controller.py`
      does not define). */
  datatype Table = DayTable(appId: string, date: Date) | ArchiveTable

  /** A call on the updater. */
  datatype UpdaterCall =
    | UpdateCall(source: string, appId: string, date: Date, table: Table)
    | ArchiveCall(source: string, table: Table)

  predicate Recognised(updateType: string)
  {
    updateType == LoadName || updateType == ArchiveName || updateType == LoadIntoArchiveName
  }

  /** `_update`'s branch for one source: a load into the day's partition, an archive of it,
      a load into the archive table, or nothing for a type it does not know. */
  function SourceCalls(source: string, r: Request): (calls: seq<UpdaterCall>)
  {
    if r.updateType == LoadName then [UpdateCall(source, r.appId, r.date, DayTable(r.appId, r.date))]
    else if r.updateType == ArchiveName then [ArchiveCall(source, DayTable(r.appId, r.date))]
    else if r.updateType == LoadIntoArchiveName then [UpdateCall(source, r.appId, r.date, ArchiveTable)]
    else []
  }

  /** `_update`: the sources in order. */
  function Dispatch(sources: seq<string>, r: Request): (calls: seq<UpdaterCall>)
  {
    if sources == [] then []
    else Dispatch(sources[..|sources| - 1], r) + SourceCalls(sources[|sources| - 1], r)
  }

  /** A request of a known type makes exactly one call per source, in the sources' order,
      of the kind and on the table its type names. */
  lemma {:induction false} DispatchRecognised(sources: seq<string>, r: Request, k: nat)
    requires Recognised(r.updateType) && k < |sources|
    ensures |Dispatch(sources, r)| == |sources|
    ensures Dispatch(sources, r)[k].source == sources[k]
    ensures r.updateType == LoadName ==> Dispatch(sources, r)[k] == UpdateCall(sources[k], r.appId, r.date, DayTable(r.appId, r.date))
    ensures r.updateType == ArchiveName ==> Dispatch(sources, r)[k] == ArchiveCall(sources[k], DayTable(r.appId, r.date))
    ensures r.updateType == LoadIntoArchiveName ==> Dispatch(sources, r)[k] == UpdateCall(sources[k], r.appId, r.date, ArchiveTable)
  {
    DispatchLength(sources, r);
    var init := sources[..|sources| - 1];
    if k < |init| {
      DispatchRecognised(init, r, k);
      assert init[k] == sources[k];
    }
  }

  lemma {:induction false} DispatchLength(sources: seq<string>, r: Request)
    requires Recognised(r.updateType)
    ensures |Dispatch(sources, r)| == |sources|
  {
    if sources != [] {
      DispatchLength(sources[..|sources| - 1], r);
    }
  }

  /** A request of any other type makes no call at all. */
  lemma {:induction false} DispatchUnrecognised(sources: seq<string>, r: Request)
    requires !Recognised(r.updateType)
    ensures Dispatch(sources, r) == []
  {
    if sources != [] {
      DispatchUnrecognised(sources[..|sources| - 1], r);
    }
  }

  /** Fewer sources make a prefix of a request's calls. */
  lemma {:induction false} DispatchPrefix(sources: seq<string>, r: Request, n: nat)
    requires n <= |sources|
    ensures Dispatch(sources[..n], r) <= Dispatch(sources, r)
    decreases |sources|
  {
    if n < |sources| {
      var init := sources[..|sources| - 1];
      assert init[..n] == sources[..n];
      DispatchPrefix(init, r, n);
    } else {
      assert sources[..n] == sources;
    }
  }

  lemma DispatchSnoc(sources: seq<string>, r: Request, k: nat)
    requires k < |sources|
    ensures Dispatch(sources[..k + 1], r) == Dispatch(sources[..k], r) + SourceCalls(sources[k], r)
  {
    assert sources[..k + 1][..k] == sources[..k];
  }

  /** A source that makes a call cuts the request's calls strictly inside them. */
  lemma RaisedWithin(sources: seq<string>, r: Request, k: nat)
    requires k < |sources| && SourceCalls(sources[k], r) != []
    ensures var done := Dispatch(sources[..k], r);
      |done| < |Dispatch(sources, r)| && Dispatch(sources, r)[..|done|] == done
  {
    DispatchSnoc(sources, r, k);
    DispatchPrefix(sources, r, k + 1);
  }

  /** Every request the scheduler makes is of a known type, and the three type names are
      distinct, so the controller does what the scheduler asked. */
  lemma SchedulerTypesRecognised(t: UpdateType, u: UpdateType)
    ensures Recognised(TypeName(t))
    ensures TypeName(t) == TypeName(u) <==> t == u
  {
    assert LoadName[0] == 'l' && ArchiveName[0] == 'a' && LoadIntoArchiveName[0] == 'l';
    assert |LoadName| == 4 && |LoadIntoArchiveName| == 17;
  }

  /** `_step`: every request of the round, in order. */
  function StepCalls(sources: seq<string>, requests: seq<Request>): seq<UpdaterCall>
  {
    if requests == [] then []
    else StepCalls(sources, requests[..|requests| - 1]) + Dispatch(sources, requests[|requests| - 1])
  }

  /** One round of `run`: the scheduler's requests and, when an exception ends the round,
      how many updater calls it completed first. The exception may come from the updater
      call for any source of any request, or from the scheduler between requests, so the
      count need not end at a request; the call that raised is not among the completed
      ones. A count at or past the round's last call is an exception after all its calls. */
  datatype Round = Round(requests: seq<Request>, failedAfter: Option<nat>)

  /** The calls a round completes: the first `failedAfter` calls of the full round, or all
      of them. */
  function RoundCalls(sources: seq<string>, round: Round): (calls: seq<UpdaterCall>)
    ensures calls <= StepCalls(sources, round.requests)
    ensures round.failedAfter.None? ==> calls == StepCalls(sources, round.requests)
    ensures round.failedAfter.Some? ==>
              |calls| == Min(round.failedAfter.value, |StepCalls(sources, round.requests)|)
  {
    var all := StepCalls(sources, round.requests);
    match round.failedAfter
    case None => all
    case Some(n) => if n < |all| then all[..n] else all
  }

  function Min(a: nat, b: nat): nat { if a < b then a else b }

  /** Handling fewer requests makes a prefix of the calls. */
  lemma {:induction false} StepCallsPrefix(sources: seq<string>, requests: seq<Request>, n: nat)
    requires n <= |requests|
    ensures StepCalls(sources, requests[..n]) <= StepCalls(sources, requests)
    decreases |requests|
  {
    if n < |requests| {
      var init := requests[..|requests| - 1];
      assert init[..n] == requests[..n];
      StepCallsPrefix(sources, init, n);
    } else {
      assert requests[..n] == requests;
    }
  }

  lemma StepCallsSnoc(sources: seq<string>, requests: seq<Request>, k: nat)
    requires k < |requests|
    ensures StepCalls(sources, requests[..k + 1]) == StepCalls(sources, requests[..k]) + Dispatch(sources, requests[k])
  {
    assert requests[..k + 1][..k] == requests[..k];
  }

  /** A round whose exception, if any, comes after its last call completes every call. */
  lemma RoundCallsAll(sources: seq<string>, requests: seq<Request>, failedAfter: Option<nat>)
    requires failedAfter.Some? ==> |StepCalls(sources, requests[..|requests|])| <= failedAfter.value
    ensures RoundCalls(sources, Round(requests, failedAfter)) == StepCalls(sources, requests[..|requests|])
  {
    assert requests[..|requests|] == requests;
  }

  /** A round that fails inside request `k`, after `n` calls: every call of the requests
      before `k` was made, then the calls for the first sources of request `k`, and no
      others. So the first source of a request can have been loaded and the next not. */
  lemma RoundCallsPrefix(sources: seq<string>, requests: seq<Request>, n: nat, k: nat)
    requires k < |requests|
    requires |StepCalls(sources, requests[..k])| <= n
    requires n < |StepCalls(sources, requests[..k])| + |Dispatch(sources, requests[k])|
    ensures var done := StepCalls(sources, requests[..k]);
      RoundCalls(sources, Round(requests, Some(n)))
        == done + Dispatch(sources, requests[k])[..n - |done|]
  {
    var done := StepCalls(sources, requests[..k]);
    var upto := StepCalls(sources, requests[..k + 1]);
    assert requests[..k + 1][..k] == requests[..k];
    assert upto == done + Dispatch(sources, requests[k]);
    StepCallsPrefix(sources, requests, k + 1);
    assert StepCalls(sources, requests)[..n] == upto[..n];
  }

  /** With two sources, a load that raises on the second source's call has loaded the day
      into the first source's table only. */
  lemma FirstSourceOnly(s0: string, s1: string, appId: string, date: Date)
    ensures RoundCalls([s0, s1], Round([Request(appId, date, LoadName)], Some(1)))
              == [UpdateCall(s0, appId, date, DayTable(appId, date))]
  {
    var r := Request(appId, date, LoadName);
    DispatchRecognised([s0, s1], r, 0);
    assert [r][..0] == [];
    assert StepCalls([s0, s1], [r]) == Dispatch([s0, s1], r);
  }

  function RunCalls(sources: seq<string>, rounds: seq<Round>): seq<UpdaterCall>
  {
    if rounds == [] then []
    else RunCalls(sources, rounds[..|rounds| - 1]) + RoundCalls(sources, rounds[|rounds| - 1])
  }

  function Failures(rounds: seq<Round>): nat
  {
    if rounds == [] then 0
    else Failures(rounds[..|rounds| - 1]) + (if rounds[|rounds| - 1].failedAfter.Some? then 1 else 0)
  }

  /** A failed round does not stop the loop: the rounds after it make all their calls. */
  lemma {:induction false} RunContinues(sources: seq<string>, rounds: seq<Round>, later: seq<Round>)
    requires forall k :: 0 <= k < |later| ==> later[k].failedAfter.None?
    ensures RunCalls(sources, rounds + later) == RunCalls(sources, rounds) + StepsOf(sources, later)
    decreases |later|
  {
    if later == [] {
      assert rounds + later == rounds;
    } else {
      var init, last := later[..|later| - 1], later[|later| - 1];
      RunContinues(sources, rounds, init);
      DropLast(rounds, later);
      assert RoundCalls(sources, last) == StepCalls(sources, last.requests);
      AppendAssoc(RunCalls(sources, rounds), StepsOf(sources, init), StepCalls(sources, last.requests));
    }
  }

  lemma DropLast<T>(a: seq<T>, b: seq<T>)
    requires b != []
    ensures (a + b)[..|a + b| - 1] == a + b[..|b| - 1] && (a + b)[|a + b| - 1] == b[|b| - 1]
  {
  }

  /** The calls of rounds that all complete. */
  function StepsOf(sources: seq<string>, rounds: seq<Round>): seq<UpdaterCall>
  {
    if rounds == [] then []
    else StepsOf(sources, rounds[..|rounds| - 1]) + StepCalls(sources, rounds[|rounds| - 1].requests)
  }

  lemma RunStep(sources: seq<string>, rounds: seq<Round>, i: nat)
    requires i < |rounds|
    ensures RunCalls(sources, rounds[..i + 1]) == RunCalls(sources, rounds[..i]) + RoundCalls(sources, rounds[i])
    ensures Failures(rounds[..i + 1]) == Failures(rounds[..i]) + (if rounds[i].failedAfter.Some? then 1 else 0)
  {
    assert rounds[..i + 1][..i] == rounds[..i];
  }

  /** The controller: its sources, the calls it made, and how often it paused after an
      exception (`time.sleep(10)`). */
  class UpdatesController {
    const sources: seq<string>
    var calls: seq<UpdaterCall>
    var pauses: nat

    constructor(sources: seq<string>)
      ensures this.sources == sources && calls == [] && pauses == 0
    {
      this.sources := sources;
      calls := [];
      pauses := 0;
    }

    /** `_update`, with an updater that raises on the call after `budget` more calls (never,
        for `None`): the calls for the sources in order, up to the one that raised. */
    method Update(r: Request, budget: Option<nat>) returns (raised: bool)
      modifies this
      ensures raised <==> budget.Some? && budget.value < |Dispatch(sources, r)|
      ensures calls == old(calls) + (if raised then Dispatch(sources, r)[..budget.value] else Dispatch(sources, r))
      ensures pauses == old(pauses)
    {
      raised := false;
      var made := 0;
      for k := 0 to |sources|
        invariant made == |Dispatch(sources[..k], r)|
        invariant calls == old(calls) + Dispatch(sources[..k], r) && pauses == old(pauses)
        invariant budget.Some? ==> made <= budget.value
      {
        var source := sources[k];
        DispatchSnoc(sources, r, k);
        var next := SourceCalls(source, r);
        if next != [] && budget == Some(made) {
          raised := true;
          RaisedWithin(sources, r, k);
          return;
        }
        ghost var before := calls;
        if r.updateType == LoadName {
          calls := calls + [UpdateCall(source, r.appId, r.date, DayTable(r.appId, r.date))];
        } else if r.updateType == ArchiveName {
          calls := calls + [ArchiveCall(source, DayTable(r.appId, r.date))];
        } else if r.updateType == LoadIntoArchiveName {
          calls := calls + [UpdateCall(source, r.appId, r.date, ArchiveTable)];
        }
        assert calls == before + next;
        made := made + |next|;
      }
      assert sources[..|sources|] == sources;
    }

    /** `_step`, with the round ending in an exception after `failedAfter` calls (never, for
        `None`): the calls the round completes, and whether it failed. */
    method Step(requests: seq<Request>, failedAfter: Option<nat>) returns (failed: bool)
      modifies this
      ensures failed == failedAfter.Some?
      ensures calls == old(calls) + RoundCalls(sources, Round(requests, failedAfter))
      ensures pauses == old(pauses)
    {
      var made := 0;
      for k := 0 to |requests|
        invariant made == |StepCalls(sources, requests[..k])|
        invariant calls == old(calls) + StepCalls(sources, requests[..k]) && pauses == old(pauses)
        invariant failedAfter.Some? ==> made <= failedAfter.value
      {
        StepCallsSnoc(sources, requests, k);
        ghost var before := calls;
        var budget := if failedAfter.Some? then Some(failedAfter.value - made) else None;
        var raised := Update(requests[k], budget);
        if raised {
          RoundCallsPrefix(sources, requests, failedAfter.value, k);
          AppendAssoc(old(calls), StepCalls(sources, requests[..k]), Dispatch(sources, requests[k])[..failedAfter.value - made]);
          return true;
        }
        assert calls == before + Dispatch(sources, requests[k]);
        AppendAssoc(old(calls), StepCalls(sources, requests[..k]), Dispatch(sources, requests[k]));
        made := made + |Dispatch(sources, requests[k])|;
      }
      RoundCallsAll(sources, requests, failedAfter);
      failed := failedAfter.Some?;
    }

    /** `run`, over the given rounds: each round steps through its requests until its
        exception, if any, which is logged, and the loop pauses and goes on. */
    method Run(rounds: seq<Round>)
      modifies this
      ensures calls == old(calls) + RunCalls(sources, rounds)
      ensures pauses == old(pauses) + Failures(rounds)
    {
      for i := 0 to |rounds|
        invariant calls == old(calls) + RunCalls(sources, rounds[..i])
        invariant pauses == old(pauses) + Failures(rounds[..i])
      {
        RunStep(sources, rounds, i);
        AppendAssoc(old(calls), RunCalls(sources, rounds[..i]), RoundCalls(sources, rounds[i]));
        var failed := Step(rounds[i].requests, rounds[i].failedAfter);
        if failed {
          pauses := pauses + 1;
        }
      }
      assert rounds[..|rounds|] == rounds;
    }
  }
}
