/** The records of `state/state.py`, with the defaults of their constructors. An argument
    left out of a Python call is `None` here. */
module StateRecords {
  import opened Common
  import opened Calendar

  /** `InitializationSate` */
  datatype InitializationState = InitializationState(startedAt: Instant, dateStart: Date, dateUntil: Date)

  /** `AppIdState`: its `__slots__` are `app_id`, `inited`, `initialization_state` and
      `updated_until`, and nothing else. */
  datatype AppIdState = AppIdState(appId: string, inited: bool,
                                   initializationState: Option<InitializationState>,
                                   updatedUntil: Option<Instant>)

  /** `State`: `last_update_time` and the list `app_id_states`. */
  datatype State = State(lastUpdateTime: Option<Instant>, appIdStates: seq<AppIdState>)

  /** `InitializationSate(started_at, date_start, date_until)` keeps the three values. */
  function NewInitializationState(startedAt: Instant, dateStart: Date, dateUntil: Date): (r: InitializationState)
    ensures r.startedAt == startedAt && r.dateStart == dateStart && r.dateUntil == dateUntil
  {
    InitializationState(startedAt, dateStart, dateUntil)
  }

  /** `AppIdState(app_id, inited=False, initialization_state=None, updated_until=None)`:
      `inited` is false unless given; the other two stay unset unless given. */
  function NewAppIdState(appId: string, inited: Option<bool>,
                         initializationState: Option<InitializationState>,
                         updatedUntil: Option<Instant>): (r: AppIdState)
    ensures r.appId == appId
    ensures r.inited <==> inited == Some(true)
    ensures r.initializationState == initializationState && r.updatedUntil == updatedUntil
  {
    AppIdState(appId, if inited.Some? then inited.value else false, initializationState, updatedUntil)
  }

  /** `State(last_update_time=None, app_id_states=None)`: `app_id_states or []`, so both a
      missing list and an empty one give a fresh empty list. */
  function NewState(lastUpdateTime: Option<Instant>, appIdStates: Option<seq<AppIdState>>): (r: State)
    ensures r.lastUpdateTime == lastUpdateTime
    ensures appIdStates.None? ==> r.appIdStates == []
    ensures appIdStates.Some? ==> r.appIdStates == appIdStates.value
  {
    State(lastUpdateTime, if appIdStates.Some? && appIdStates.value != [] then appIdStates.value else [])
  }

  /** `State()` has no finish stamp and no application states. */
  lemma EmptyStateDefaults()
    ensures NewState(None, None) == State(None, [])
    ensures NewState(None, Some([])) == NewState(None, None)
  {
  }

  /** `AppIdState(app_id)` is not inited, has no initialization state and no
      `updated_until`. */
  lemma AppIdStateDefaults(appId: string)
    ensures NewAppIdState(appId, None, None, None) == AppIdState(appId, false, None, None)
  {
  }
}
