# AppMetrica Logs API loader, modelled in Dafny

This project models the core of the AppMetrica Logs API loader. The loader decides which
(application, day) slices of the Logs API export to fetch. It fetches each slice in parts
and writes the rows into ClickHouse, keyed so that a repeated load adds nothing. It keeps
enough state on disk to resume after a restart. The Python code comes from several
generations that do not call one another consistently. Each file is modelled against its
own direct collaborators, and the places where the generations do not fit together are
listed under "Left out".

The modules, file by file:

- `Calendar` (`calendar.dfy`): Python dates as ordinals and naive datetimes as integer
  microseconds. It covers the day window, `%Y-%m-%d` and `%Y%m%d` text, and unix
  timestamps.
- `Common`, `Dicts`, `JsonValues`, `Frames`: shared vocabulary.
  - `Dicts` models Python's insertion-ordered `dict`.
  - `JsonValues` covers what `json.load` returns.
  - `Frames` covers the rows of a pandas frame or a ClickHouse table.
- `Scheduling` and `SchedulerFacts` (`scheduler.dfy`, `scheduler_facts.dfy`): the
  `Scheduler` of `updater/scheduler.py`. It is a class whose methods are proved to follow
  step functions. The lemmas state what one run promises: the archive sweep, the window
  scan, request order, and when the state is marked and saved.
- `StateRecords`, `JsonState`, `FileStorage`: the records of `state/state.py`, their JSON
  form in `state/json_serialization.py`, and their file form in `state/file_storage.py`,
  with the round trips.
- `LegacyState`, `LegacyStorage`: the older `StateController` of `state/controller.py`
  and `state_storage.py`, and the `FileStateStorage` of `state_storage.py`.
- `LogsApiClient`, `ExportLoader`: the export request of `logs_api/client.py` and the
  parts loop of `logs_api/loader.py`.
- `Clickhouse` (`db/clickhouse.py`): a class over the server's databases and tables.
- `DbControllers`: the per-source controller and its cache, from
  `updater/db_controller.py` and `updater/db_controllers_collection.py`.
- `UpdaterPipeline` (`updater/updater.py`) and `UpdatesControlling`
  (`updater/updates_controller.py`).
- `LegacyUpdating` (`updater.py`): the first-generation updater with temporary-table
  de-duplication.
- `FieldCatalogue`: `fields/*.py` and `fields.py`.

The clock, HTTP answers, file contents and the pandas export stream are parameters.

## Model

| member | source | states |
|---|---|---|
| Calendar.DateOf | updater/scheduler.py:144 | the day of an instant is the one whose first and last instants enclose it |
| Calendar.DateOfStart | logs_api/client.py:62-63 | the first and the last instant of a day both fall on that day |
| Calendar.Window | updater/scheduler.py:145-152 | the date range from `today - limit` to `today` holds `limit + 1` consecutive days, ascending, and is empty for a negative limit |
| Calendar.FromOrdinalValid | state/file_storage.py:33-34 | the civil date of an ordinal is a valid calendar date that maps back to the same ordinal |
| Calendar.FromOrdinalInjective | state/file_storage.py:33-34 | distinct ordinals have distinct civil dates |
| Calendar.FormatDate | state/json_serialization.py:37 | the `%Y-%m-%d` text of a date has ten characters, dashes at positions 4 and 7 |
| Calendar.FormatCompact | updater/updates_controller.py:34 | the `%Y%m%d` text of a date has eight digits |
| Calendar.MonthField | state/json_serialization.py:56 | a `%m` field names a month, 1 to 12 |
| Calendar.DayField | state/json_serialization.py:56 | a `%d` field names a day, 1 to 31 |
| Calendar.MonthFieldForms | state/json_serialization.py:56 | `%m` takes exactly the two zero-padded digits of a month, or one digit for months below 10 |
| Calendar.DayFieldForms | state/json_serialization.py:56 | `%d` takes exactly the two zero-padded digits of a day, or for days below 10 one digit alone or after a blank |
| Calendar.ParseCivilFields | state/json_serialization.py:56 | four year digits, a dash, any `%m` text, a dash and any `%d` text read as the year, month and day they spell |
| Calendar.ParseDateFields | state/json_serialization.py:56 | every spelling of a valid date that the fields allow parses to that date |
| Calendar.ParseDateValid | state/json_serialization.py:56-57 | a text that parses as a date gives a date Python can hold |
| Calendar.ParseFormatDate | state/json_serialization.py:37-57 | writing a date as `%Y-%m-%d` and parsing it back gives the same date |
| Calendar.FormatDateInjective | state/controller.py:42 | distinct dates have distinct `%Y-%m-%d` keys |
| Calendar.CompactDigits | updater/updater.py:97 | the `%Y%m%d` text holds the same digits as the `%Y-%m-%d` one, without the dashes |
| Calendar.FormatCompactInjective | updater/updater.py:97 | distinct dates have distinct `%Y%m%d` suffixes |
| Calendar.ToUnixSeconds | state/json_serialization.py:28-29 | the whole seconds since 1970-01-01 of the second that holds the instant |
| Calendar.FromTimestamp | state/controller.py:85 | the instant is within half a microsecond of the timestamp |
| Calendar.UnixRoundTrip | state/json_serialization.py:24-29 | converting to whole unix seconds and back loses only the microseconds, and is stable after one trip |
| Calendar.TimestampRoundTrip | state/controller.py:85 | a float timestamp read back gives the same instant |
| Calendar.RoundHalfEven | state/file_storage.py:41 | the microsecond count of a timestamp is the nearest integer, the even one on a tie |
| Calendar.UtcFromTimestamp | state/file_storage.py:41 | a timestamp converts exactly when its instant falls in years 1 to 9999, and then to that instant |
| Calendar.UtcTimestampRoundTrip | state/file_storage.py:41 | a datetime Python can hold reads back from its timestamp |
| Calendar.ArchivedDateIsFar | updater/scheduler.py:37 | the archive sentinel is midnight of 1 January 3000, 1095362 days after the first day |
| Common.NatToString | logs_api/client.py:73-77 | the decimal text of a number is non-empty and all digits |
| Common.PaddedValue | state/json_serialization.py:37 | a zero-padded field of digits reads back as the number written |
| Common.ReplaceChar | db/clickhouse.py:43 | replacing newlines by text without newlines leaves no newline |
| Common.Split | db/clickhouse.py:59 | splitting gives at least one piece, none holding the separator, and joining the pieces gives the text back |
| Common.JoinSplit | db/clickhouse.py:59-60 | joining pieces that hold no separator and splitting again gives the pieces back |
| Common.Strip | db/clickhouse.py:59 | the result is a slice of the text that neither starts nor ends with whitespace, and everything outside it is whitespace in the sense of `str.isspace` |
| Common.StripLeft | db/clickhouse.py:59 | what remains is a suffix of the text that does not start with whitespace, and only whitespace was removed |
| Common.StripRight | db/clickhouse.py:59 | what remains is a prefix of the text that does not end with whitespace, and only whitespace was removed |
| Common.MapAllItems | state/json_serialization.py:74 | mapping a list succeeds exactly when every item maps, and then item by item, in order |
| Common.ReplaceAbsent | db/clickhouse.py:166-169 | a text without the pattern is left unchanged by the replacement |
| Common.ReplaceHead | db/clickhouse.py:166-169 | a text starting with the pattern has that occurrence replaced and the rest handled alike |
| Dicts.Keys | state/json_serialization.py:40-41 | the keys of a dictionary in insertion order, one per entry |
| Dicts.Get | updater/scheduler.py:81 | a lookup finds nothing exactly when the key is absent, and otherwise an entry's value |
| Dicts.Set | state/json_serialization.py:59 | assigning a key keeps the keys, in order, when it is present and appends it when new; keys stay distinct |
| Dicts.GetSet | updater/scheduler.py:70 | after assigning a key, that key looks up the new value and every other key what it had |
| Dicts.FromPairs | state/file_storage.py:26 | the dictionary `json.load` builds from an object's pairs has distinct keys |
| Dicts.FromPairsUnique | state/file_storage.py:26 | pairs with distinct keys give a dictionary of the same pairs in the same order |
| Dicts.SetAppends | state/json_serialization.py:59 | assigning a new key appends one entry |
| Dicts.GetAt | state/json_serialization.py:55 | in a dictionary with distinct keys, each entry is what its key looks up |
| Dicts.RemoveKey | db/clickhouse.py:77-82 | dropping a table removes its key; removing a key leaves the other keys, with their values and in order, and keeps keys distinct |
| Dicts.InsertEntry | state_storage.py:54-55 | inserting an entry adds exactly that entry |
| Dicts.SortByKey | state_storage.py:54-55 | `sort_keys=True` writes a permutation of the entries |
| Dicts.InsertEntryGet | state_storage.py:54-55 | inserting an entry with a new key keeps keys distinct, adds that key and changes no other lookup |
| Dicts.SortByKeyGet | state_storage.py:54-55 | sorting a dictionary with distinct keys keeps them distinct and changes no lookup |
| Dicts.InsertEntrySorted | state_storage.py:54-55 | inserting into entries in key order keeps them in key order |
| Dicts.SortByKeySorted | state_storage.py:54-55 | the sorted entries are in key order |
| JsonValues.Int | state/file_storage.py:76 | an integer is written as a whole JSON number of that value |
| JsonValues.MemberOfUnique | state/file_storage.py:26-29 | a member of an object written with distinct keys is its dictionary lookup |
| JsonValues.MemberAt | state/file_storage.py:26-29 | a member written under a distinct key reads back as written |
| JsonValues.MemberAbsent | state/file_storage.py:29 | a key not written reads back as absent |
| Frames.KeyOf | db/clickhouse.py:195-198 | the key tuple of a row has one cell per key column, in order |
| Frames.Restrict | updater/db_controller.py:100 | a row cut to the given columns keeps exactly those of its cells |
| Frames.FirstMissing | updater/db_controller.py:100 | nothing is found exactly when every requested column exists; otherwise a requested column that does not |
| Frames.Select | updater/db_controller.py:98-100 | selecting columns fails exactly when one is missing, naming it; otherwise the frame has exactly those columns and the same rows cut to them |
| Frames.SetColumn | updater/updater.py:51-52 | setting a column sets it in every row and adds it last when it is new |
| StateRecords.NewInitializationState | state/state.py:24-28 | the record keeps the three values |
| StateRecords.NewAppIdState | state/state.py:39-46 | the record keeps the id and the optional values, and is inited only when asked |
| StateRecords.NewState | state/state.py:55-58 | the record keeps the finish stamp, and an omitted or empty list becomes the empty list |
| StateRecords.EmptyStateDefaults | state/state.py:55-58 | `State()` has no finish stamp and no application states, like `State(None, [])` |
| StateRecords.AppIdStateDefaults | state/state.py:39-46 | `AppIdState(app_id)` is not inited and holds no initialization state or stamp |
| Scheduling.SetUpdate | updater/scheduler.py:70 | assigning a date's entry stores the new instant under that date only and keeps every date listed once, an existing date in its place and a new one last |
| Scheduling.WaitTime | updater/scheduler.py:89-98 | the wait is never negative |
| Scheduling.WaitGate | updater/scheduler.py:89-104 | there is no wait exactly when no run has finished or the interval since the last finish has passed; the run then starts no earlier than now and no earlier than the last finish plus the interval, and at exactly that instant when it had to wait |
| Scheduling.FirstIndexOf | updater/scheduler.py:56-57 | the index found holds a state of that id and no earlier state has it; none found means no state has it |
| Scheduling.GetOrCreate | updater/scheduler.py:55-63 | the state returned has the id and is the first with it; a known id leaves the list alone, an unknown one appends exactly one empty state; the finish stamp is untouched |
| Scheduling.SweepOne | updater/scheduler.py:107-115 | one date of the sweep yields at most one request, an ARCHIVE of that application and date, whose mark sets only that date's entry, to the archive sentinel; with no request nothing changes |
| Scheduling.UpdateOne | updater/scheduler.py:117-135 | one window date yields at most one request, for that application and date, whose mark sets only that date's entry; with no request nothing changes |
| Scheduling.Scheduler.constructor | updater/scheduler.py:39-47 | the scheduler holds its settings and the storage, and no in-memory state yet |
| Scheduling.Scheduler.GetOrCreateAppIdState | updater/scheduler.py:55-63 | the index and new state are those of the get-or-create step, and nothing is saved |
| Scheduling.Scheduler.MarkDateUpdated | updater/scheduler.py:65-71 | the date's entry of that application becomes the given instant and the whole state is saved |
| Scheduling.Scheduler.MarkDateArchived | updater/scheduler.py:73-78 | the date's entry becomes the archive sentinel and the state is saved |
| Scheduling.Scheduler.IsDateArchived | updater/scheduler.py:80-82 | is `IsArchived`, the predicate that SweepSkipsArchived and ArchivedNeverRequested are stated over: the date has an entry equal to the archive sentinel |
| Scheduling.Scheduler.FinishUpdates | updater/scheduler.py:84-87 | the finish stamp becomes the given instant, nothing else changes, and the state is saved |
| Scheduling.Scheduler.ArchiveIfOld | updater/scheduler.py:107-115 | one date of the archive sweep: at most one request, which is the one the sweep step yields, and the state and storage that step leaves |
| Scheduling.Scheduler.ArchiveOldDates | updater/scheduler.py:106-115 | the loop over the dates in insertion order yields exactly the sweep's requests and leaves its state, with storage holding the state of the last mark |
| Scheduling.Scheduler.UpdateDate | updater/scheduler.py:117-135 | one window date: at most one request, the one the window step yields, and that step's state and storage |
| Scheduling.Scheduler.UpdateWindow | updater/scheduler.py:151-155 | the loop over the window yields exactly the window scan's requests and leaves its state and storage |
| Scheduling.Scheduler.UpdateApp | updater/scheduler.py:143-155 | fails exactly when `date_to - update_limit` leaves years 1 to 9999, with no request, the application's state found or created and nothing saved; otherwise the requests of one application are the sweep's then the window's, with the resulting state and storage |
| Scheduling.Scheduler.UpdateApps | updater/scheduler.py:142-155 | fails exactly when there is an application and the window leaves years 1 to 9999, then at the first application with no request and nothing saved; otherwise the loop over the configured applications yields the requests of the whole pass in order, ends in its state and leaves stored the state the last mark of the pass saved |
| Scheduling.Scheduler.UpdateRequests | updater/scheduler.py:137-156 | a run loads the stored state and starts after the wait; when the window leaves years 1 to 9999 it fails before any request, saves nothing and is not stamped; otherwise it yields the pass's requests and saves the state with the finish stamp set |
| SchedulerFacts.Ids | updater/scheduler.py:56 | the ids listed are those of the states, position by position |
| SchedulerFacts.LocalThen | updater/scheduler.py:147-155 | two passes over one application, one after the other, together change only that application and yield only its requests |
| SchedulerFacts.SweepDatesLocal | updater/scheduler.py:106-115 | the archive sweep changes only its own application's dates, keeps every id and the finish stamp, and each request is for that application |
| SchedulerFacts.ScanDatesLocal | updater/scheduler.py:117-135 | the same for the window scan |
| SchedulerFacts.GetOrCreateIds | updater/scheduler.py:55-63 | the id list grows by the id exactly when it was missing, and stays free of repeats |
| SchedulerFacts.ProcessAppFacts | updater/scheduler.py:142-155 | one application's pass yields only its own requests, keeps the finish stamp in every saved state, and changes the id list only by get-or-create |
| SchedulerFacts.ProcessAppsIds | updater/scheduler.py:142-143 | after a pass every configured application has exactly one state, and existing states keep their places |
| SchedulerFacts.ProcessAppsRequests | updater/scheduler.py:142-155 | every request of a pass is for a configured application |
| SchedulerFacts.StampKeptDuringRun | updater/scheduler.py:84-87 | while requests are being handled the finish stamp, in memory and in every save, stays the one the run started with |
| SchedulerFacts.InterruptedRun | updater/scheduler.py:148-156 | if handling the k-th request raises, what storage holds still carries the previous finish stamp, so the next run does not wait |
| SchedulerFacts.StaleDates | updater/scheduler.py:107-112 | a date is in the list exactly when it is one of the given dates and is stale |
| SchedulerFacts.ArchiveRequests | updater/scheduler.py:113-114 | one ARCHIVE request per date, in order |
| SchedulerFacts.StaleDatesFrame | updater/scheduler.py:107-112 | staleness depends only on the entries of the dates looked at |
| SchedulerFacts.SweepDatesExact | updater/scheduler.py:106-115 | over distinct dates the sweep yields exactly an ARCHIVE request per stale date, in order, and marks exactly those dates archived, with no key added or moved |
| SchedulerFacts.SweepLeavesNothingStale | updater/scheduler.py:106-115 | after the sweep over all the keys, no date of the application is stale |
| SchedulerFacts.SweepSkipsArchived | updater/scheduler.py:108-109 | an archived date is never requested by the sweep and stays archived |
| SchedulerFacts.ScanSkipsRecent | updater/scheduler.py:122-125 | a date loaded within the update interval is not requested by the window scan and keeps its entry |
| SchedulerFacts.ArchivedNeverRequested | updater/scheduler.py:106-135 | for a start less than one interval past the archive sentinel (any start before the year 3000), an archived date gets no request at all from its application's pass and stays archived |
| SchedulerFacts.SweepOnlyArchives | updater/scheduler.py:113-114 | the sweep yields only ARCHIVE requests |
| SchedulerFacts.ScanAscending | updater/scheduler.py:151-155 | over ascending dates the window scan yields only LOAD or LOAD_INTO_ARCHIVE requests, for dates of the window, at most one per date and in ascending order |
| SchedulerFacts.UpdateOneLoads | updater/scheduler.py:117-135 | one window date yields at most one request, a load of that date |
| SchedulerFacts.ProcessAppOrder | updater/scheduler.py:142-155 | within one application every ARCHIVE request comes before every other, the others are in ascending date order, and they all lie in the window ending on the start day |
| SchedulerFacts.UpdateOneClassifies | updater/scheduler.py:117-135 | no request exactly when the date was loaded within the interval; otherwise LOAD when the last event is fresh, marked with the mark time, or LOAD_INTO_ARCHIVE, marked archived; the state saved is the new state |
| SchedulerFacts.SweepOneClassifies | updater/scheduler.py:107-115 | an ARCHIVE request exactly for a stale date, which becomes archived without moving; otherwise nothing changes |
| FileStorage.AppsJson | state/file_storage.py:61-80 | one dictionary per application state, in the order of the list |
| FileStorage.DecodeOrdinal | state/file_storage.py:33-34 | a date read from an ordinal is one Python can hold |
| FileStorage.DecodeApps | state/file_storage.py:28-48 | a list that decodes gives one application state per item |
| FileStorage.Save | state/file_storage.py:60-89 | the object written is the state's dictionary, and loading it gives the state back whenever its dates and datetimes are ones Python can hold |
| FileStorage.Load | state/file_storage.py:24-58 | the result is the decoding of the file's content, and a missing or non-JSON file gives the empty `State()` |
| FileStorage.DecodeAppsSnoc | state/file_storage.py:28-48 | the loop over the list extends the decoded prefix by the next item, or stops at its fault |
| FileStorage.AppsFaultStays | state/file_storage.py:28-48 | a fault in an item ends the load with that fault, whatever follows |
| FileStorage.DecodeTimestamp | state/file_storage.py:39-41 | `utcfromtimestamp` succeeds exactly when the rounded instant lies between `datetime.min` and `datetime.max`, and then gives that instant |
| FileStorage.AppItems | state/file_storage.py:28 | iterating `app_id_states` succeeds exactly for a list, an empty object or an empty string, and a list gives its items |
| FileStorage.StampRoundTrip | state/file_storage.py:39-41 | a stamp Python can hold, or `None`, written and read back is unchanged |
| FileStorage.OrdinalRoundTrip | state/file_storage.py:33-34 | a valid date written as its ordinal reads back as the same date |
| FileStorage.InitRoundTrip | state/file_storage.py:29-35 | an initialization state written and read back is unchanged |
| FileStorage.AppMembers | state/file_storage.py:63-79 | the dictionary of an application holds its id, its flag and its stamp, and holds an initialization state exactly when it has one |
| FileStorage.AppRoundTrip | state/file_storage.py:42-47 | an application state written and read back is unchanged |
| FileStorage.AppsRoundTrip | state/file_storage.py:27-48 | the list of application states written and read back is unchanged, in order |
| FileStorage.InitJson | state/file_storage.py:74-78 | the dictionary of an initialization state has its keys in `sort_keys` order |
| FileStorage.AppJson | state/file_storage.py:63-79 | the dictionary of an application has its keys in `sort_keys` order |
| FileStorage.StateJson | state/file_storage.py:81-89 | the dictionary written for a state has its keys in `sort_keys` order |
| FileStorage.DecodeStamp | state/file_storage.py:38-41 | a stamp read from the file is absent or one Python can hold |
| FileStorage.DecodeInit | state/file_storage.py:29-37 | an initialization state read from the file has dates Python can hold and a start instant in the `datetime` range |
| FileStorage.DecodeApp | state/file_storage.py:29-47 | an application state read from the file has only dates and datetimes Python can hold |
| FileStorage.LoadState | state/file_storage.py:24-58 | a missing or non-JSON file gives the empty `State()`, and every state that loads has only dates and datetimes Python can hold |
| FileStorage.SaveLoaded | state/file_storage.py:24-89 | a state that loads, saved and loaded again, comes back unchanged |
| FileStorage.LoadSave | state/file_storage.py:53 | saving a state whose dates and datetimes Python can hold and loading the file gives that state back |
| JsonState.UnixJson | state/json_serialization.py:28-35 | a datetime is written as a whole number of unix seconds |
| JsonState.DatePairs | state/json_serialization.py:39-41 | one `%Y-%m-%d` key per date, in insertion order, each holding that date's datetime |
| JsonState.AppsJson | state/json_serialization.py:46-50 | one object per application state, in order |
| JsonState.CollectUpdates | state/json_serialization.py:53-60 | the dictionary built from the items keeps every date once |
| JsonState.Hook | state/json_serialization.py:78-82 | an object without `app_id_states` is returned as it is; one with it becomes a state exactly when it parses as one |
| JsonState.TruncatedApp | state/json_serialization.py:24-29 | the same application and dates, each datetime cut to whole seconds |
| JsonState.TruncatedState | state/json_serialization.py:24-29 | every application state cut to whole seconds, in order |
| JsonState.UnixJsonRoundTrip | state/json_serialization.py:24-29 | a datetime Python can hold, written and read back, is cut to whole seconds |
| JsonState.LastRoundTrip | state/json_serialization.py:69-71 | a missing finish stamp is written as `null` and read back as missing; a present one comes back cut to whole seconds |
| JsonState.ArchivedSurvives | updater/scheduler.py:37 | the archive sentinel is a whole second, so an archived date is still archived after the trip |
| JsonState.DatePairsUnique | state/json_serialization.py:39-41 | distinct dates give distinct keys |
| JsonState.DateItemRoundTrip | state/json_serialization.py:55-59 | one written date item reads back as its date and its datetime cut to whole seconds |
| JsonState.CollectDistinct | state/json_serialization.py:53-60 | collecting items of distinct dates keeps the dates in their order |
| JsonState.TruncatedOn | state/json_serialization.py:53-60 | the listed dates and no others, each datetime cut to whole seconds |
| JsonState.DateUpdatesRoundTrip | state/json_serialization.py:38-60 | a written `date_updates` reads back with the same dates, in order, and truncated datetimes |
| JsonState.AppMembers | state/json_serialization.py:42-45 | the object of an application holds its id and its dates, and no `app_id_states`, so the hook leaves it alone |
| JsonState.StateJson | state/json_serialization.py:47-50 | the object of a state holds its finish stamp under `last_update_time` and its list under `app_id_states` |
| JsonState.ParseState | state/json_serialization.py:68-75 | a missing `last_update_time` is an error; a missing `app_id_states` gives no applications, and with a `null` stamp the empty `State` |
| JsonState.StateMembers | state/json_serialization.py:47-50 | the object of a state holds its finish stamp and its list |
| JsonState.TruncatedByOrder | state/json_serialization.py:53-60 | the dates read back in their order with truncated datetimes are the truncated application state |
| JsonState.AppMembersRoundTrip | state/json_serialization.py:63-65 | the written dates and id give back the application state, cut to whole seconds |
| JsonState.AppRoundTrip | state/json_serialization.py:38-65 | an application state written and parsed back is the same state cut to whole seconds |
| JsonState.AppsRoundTrip | state/json_serialization.py:74 | the applications read back in their order, each cut to whole seconds |
| JsonState.StateRoundTrip | state/json_serialization.py:32-87 | a state whose datetimes Python can hold, written by the encoder and read by the decoder's hook, is the same state cut to whole seconds |
| JsonState.MembersRoundTrip | state/json_serialization.py:68-75 | the written finish stamp and list give back the truncated state |
| JsonState.AppListRoundTrip | state/json_serialization.py:72-75 | the written list of applications parses back to the truncated list |
| LegacyState.RemainingWait | state/controller.py:54-64 | no wait without a truthy finish stamp; an error exactly when the stamp or the stamp plus the interval lies outside the years 1 to 9999; otherwise no wait once the deadline has passed, else a non-negative wait that ends exactly at the stamp plus the interval |
| LegacyState.WaitAfterFinish | state/controller.py:49-64 | after a finish stamped at a non-epoch instant the wait runs until that instant plus the interval, and fails exactly when that lies past `datetime.max` |
| LegacyState.MarkedEntries | state/controller.py:40-47 | marking `(app, date)` changes that entry alone and keeps every dictionary's keys distinct |
| LegacyState.DatesForSnoc | state/controller.py:80-91 | one more date of the range adds that date exactly when it is wanted |
| LegacyState.DatesForMembers | state/controller.py:76-92 | a pair is listed for an application exactly when its date is in the range and is wanted |
| LegacyState.DatesToUpdateMembers | state/controller.py:69-92 | a pair is in the result exactly when its application is asked for, its date is in the range and the date is wanted |
| LegacyState.UnrecordedListed | state/controller.py:83-91 | a date with no truthy entry is always listed |
| LegacyState.RecentNotListed | state/controller.py:84-90 | a date updated less than the update interval ago is never listed |
| LegacyState.DatesForAscending | state/controller.py:80-91 | over an ascending range one application's dates come out ascending |
| LegacyState.DatesForGrows | state/controller.py:80-91 | the last date of the range adds at most one pair, for that date |
| LegacyState.DatesToUpdateGrouped | state/controller.py:76-91 | with distinct applications, no pair of a later application comes before one of an earlier one |
| LegacyState.StateController.constructor | state/controller.py:23-25 | the controller starts from the state its storage loads |
| LegacyState.StateController.Save | state/controller.py:27-28 | the storage then holds the current state, which is unchanged |
| LegacyState.StateController.IsValidScheme | state/controller.py:30-31 | true exactly when the stored scheme is present and equal |
| LegacyState.StateController.UpdateDbScheme | state/controller.py:33-38 | nothing changes for the current scheme; otherwise the state is reset to only the new scheme and saved; the scheme is valid afterwards |
| LegacyState.StateController.MarkUpdated | state/controller.py:40-47 | the entry of `(app, date)` becomes now's timestamp, every other entry, the scheme and the finish stamp stay, and the state is saved |
| LegacyState.StateController.FinishUpdates | state/controller.py:49-52 | only the finish stamp changes, to now's timestamp; the state is saved and is no longer a first update |
| LegacyState.StateController.WaitTime | state/controller.py:54-64 | the remaining-wait rule, error cases included, applied to the current finish stamp |
| LegacyState.StateController.IsFirstUpdate | state/controller.py:66-67 | true exactly when there is no finish stamp at all |
| LegacyState.StateController.DatesToUpdateNow | state/controller.py:69-92 | a window that leaves years 1 to 9999 fails with `OverflowError` when an application is asked for; otherwise fails exactly when some asked-for application has an entry in the window that `fromtimestamp` cannot read, and else yields the listed pairs of the window ending today, applications in order (none for a negative limit) |
| LegacyState.StateController.AppDates | state/controller.py:77-91 | `OverflowError` when `date_to - update_limit` leaves years 1 to 9999; otherwise fails exactly when an entry in the window cannot be read, and else the loop over the window yields exactly the wanted dates of one application, in order |
| LegacyState.StateController.DateWanted | state/controller.py:83-91 | one date fails exactly when its truthy entry lies outside the years 1 to 9999, and is otherwise listed exactly when it is wanted |
| LegacyState.AllReadableIff | state/controller.py:83-86 | a window has only readable entries exactly when no date of it has an unreadable one |
| LegacyState.AppsReadableIff | state/controller.py:76-86 | a list of applications has only readable entries exactly when each of them has |
| LegacyState.ReadablePrefix | state/controller.py:83-86 | one unreadable entry fails the whole window |
| LegacyState.AppsUnreadable | state/controller.py:76-86 | one application with an unreadable entry fails the whole call |
| LegacyStorage.StampsJson | state_storage.py:53-55 | one number member per date string, in the entries' order |
| LegacyStorage.AppsJson | state_storage.py:53-55 | one object member per application, in the order given, holding its date stamps |
| LegacyStorage.DecodeStamps | state_storage.py:46 | a decoded application keeps the file's date keys, in order |
| LegacyStorage.DecodeApps | state_storage.py:46 | a decoded `date_update_time` keeps the file's applications, in order |
| LegacyStorage.LoadDefaults | state_storage.py:43-51 | a missing file, a file that is not JSON and an empty object all load as a fresh `State` |
| LegacyStorage.LoadLegacy | state_storage.py:43-51 | a missing file, one that is not JSON, an empty list and an empty string load as a fresh `State`; a non-empty string, a number, a boolean or `null` is an error; whatever loads has distinct keys at both levels |
| LegacyStorage.UpdatePair | state_storage.py:46 | a two-element list with a string key is that key and value; an element of another length, or a scalar, is an error |
| LegacyStorage.LoadPairList | state_storage.py:46 | a file holding a list of `[key, value]` pairs loads exactly as the object of those pairs |
| LegacyStorage.Merge | state_storage.py:45-46 | updating a fresh state from an object gives distinct keys at both levels, and an empty object leaves the fresh `State` |
| LegacyStorage.SaveLegacy | state_storage.py:53-55 | the object written has its three attribute names in `sort_keys` order |
| LegacyStorage.SavedObjectsSorted | state_storage.py:53-55 | inside the saved object the applications, and each application's dates, are in `sort_keys` order |
| LegacyStorage.DecodeStampsJson | state_storage.py:46-55 | written date stamps decode back to the same entries |
| LegacyStorage.DecodeAppsJson | state_storage.py:46-55 | written applications decode back to the same applications |
| LegacyStorage.SavedMembers | state_storage.py:53-55 | the saved object has distinct keys and holds each of the three attributes so that it reads back |
| LegacyStorage.SchemeReadsBack | state_storage.py:22-55 | a written scheme, present or not, reads back as itself |
| LegacyStorage.StampReadsBack | state_storage.py:22-55 | a written finish stamp, present or not, reads back as itself |
| LegacyStorage.SortEach | state_storage.py:53-55 | each application keeps its place and gets its stamps sorted by date key |
| LegacyStorage.ResortedWellKeyed | state_storage.py:53-55 | the dictionaries as `sort_keys=True` writes them still have distinct keys and are in key order at both levels |
| LegacyStorage.ResortedGet | state_storage.py:53-55 | sorting the keys changes no lookup: the same applications, each with the same stamp under each date key |
| LegacyStorage.MergeSaved | state_storage.py:46-55 | merging the saved object over a fresh state gives the saved state with its dictionaries in key order |
| LegacyStorage.LoadSave | state_storage.py:43-55 | saving a state and loading the file gives the state back with its dictionaries in key order |
| LegacyStorage.LoadSaveLookups | state_storage.py:43-55 | the state a save and a load give back has the same scheme and finish stamp and answers every application and date lookup as the saved one |
| LegacyUpdating.Distinct | updater.py:93 | the same rows, each once |
| LegacyUpdating.DistinctOfUnique | updater.py:93 | a frame without duplicate rows is left as it is |
| LegacyUpdating.DistinctPrefix | updater.py:93 | de-duplicating a prefix gives a prefix of the de-duplicated rows |
| LegacyUpdating.TempNamesDistinct | updater.py:36-37 | the production table and the two temporary tables are three different tables |
| LegacyUpdating.Names | updater.py:44-45 | the column names of the database fields, in order |
| LegacyUpdating.DayRows | updater.py:57-61 | exactly the rows whose `EventDate` is the day |
| LegacyUpdating.RestrictAll | updater.py:54-56 | every row cut to the listed columns, in order |
| LegacyUpdating.ProcessDateEffect | updater.py:89-112 | a day that completes drops both temporary tables, only appends to the production table and leaves every other table alone |
| LegacyUpdating.ProcessDateOk | updater.py:89-112 | a day completes exactly when the database exists, the upload into the load table succeeds and the production table exists |
| LegacyUpdating.ProcessDateNoDatabase | updater.py:98 | without a database nothing changes and the day fails |
| LegacyUpdating.ProcessDateUnselected | updater.py:98-106 | an upload that fails (an export field missing, or rows with another number of columns than the table) fails the day after the temporary load table was recreated empty |
| LegacyUpdating.ProcessDateNoTable | updater.py:98-108 | a missing production table fails with the loaded rows, placed by position under the database columns, left in the temporary load table |
| LegacyUpdating.ProcessDateDone | updater.py:98-112 | a completed day appends to the production table the loaded rows, placed by position under the database columns, whose key the day does not yet hold, and drops both temporary tables |
| LegacyUpdating.LoadRow | updater.py:100-106 | each database column holds the cell of the export field at the same position, and the row has exactly the database columns |
| LegacyUpdating.LoadRows | updater.py:100-106 | each uploaded row is read back and placed by position, in order |
| LegacyUpdating.LoadedCells | updater.py:100-106 | the upload fails exactly when an export field is missing or non-empty rows have another number of columns than the table; otherwise row i's database column k holds the prepared frame's cell of export field k |
| LegacyUpdating.ProcessDateTwice | updater.py:50-112 | processing a day a second time with the same export leaves every table as the first run left it, when the keys and `EventDate` are database columns and the loaded rows are of that day |
| LegacyUpdating.InsertedKeys | updater.py:50-73 | the rows inserted are those of the export whose key the day does not yet hold, cut to the database fields |
| LegacyUpdating.InsertedIdempotent | updater.py:50-87 | loading the same day's export a second time inserts nothing |
| LegacyUpdating.KeyJobs | updater.py:132-135 | one job per day of the window for one API key, in order |
| LegacyUpdating.JobsAt | updater.py:130-135 | the job at `i * days + j` is API key `i` on day `j` |
| LegacyUpdating.JobsLength | updater.py:130-135 | one job per API key and day |
| LegacyUpdating.RunJobsStops | updater.py:130-135 | a day that fails ends `update`: the jobs after it change nothing |
| LegacyUpdating.RunJobsNoDatabase | updater.py:98-135 | without a database the first day fails and nothing changes |
| LegacyUpdating.RunJobsStep | updater.py:130-135 | one more job processes its day exactly when every earlier one completed |
| LegacyUpdating.DayTexts | updater.py:132-133 | one text per day of the range |
| LegacyUpdating.DayTextAt | updater.py:132-133 | text `j` is day `first + j` written `%Y-%m-%d`, so the days run oldest first |
| LegacyUpdating.DayTextDistinct | updater.py:133 | two different calendar days are written as two different `%Y-%m-%d` texts |
| LegacyUpdating.DayTextsDistinct | updater.py:132-133 | a range of calendar days names each day once |
| LegacyUpdating.LegacyUpdater.constructor | updater.py:26-48 | the updater holds its configuration, its export source and the database as given |
| LegacyUpdating.LegacyUpdater.Prepare | updater.py:114-121 | the database and the production table exist afterwards; an existing table is left as it is |
| LegacyUpdating.LegacyUpdater.ProcessDate | updater.py:89-112 | a failing export fails the day with no table touched; otherwise the tables afterwards and the success flag are the outcome of processing the day's export |
| LegacyUpdating.LegacyUpdater.Update | updater.py:123-136 | the outcome of the jobs of every API key over the days `today - days_count` to `today` (`DayTexts(today - days_count, days_count + 1)`), in order, until a day fails; a window before year 1 fails at once |
| LegacyUpdating.LegacyUpdater.UpdateKey | updater.py:132-135 | one API key's days in order: all of its jobs when every day completes, otherwise the outcome stops at the failing day |
| LogsApiClient.ExportUrl | logs_api/client.py:58-61 | the host, then `/logs/v1/export/`, then the table, then `.csv`, nothing else |
| LogsApiClient.DayBounds | logs_api/client.py:62-68 | the range runs from the first day's `00:00:00` to the last day's `23:59:59`, each date written so that it parses back to itself |
| LogsApiClient.QueryParams | logs_api/client.py:65-77 | six distinct parameter names in the literal's order, plus `parts_count` and `part_number` exactly when there is more than one part |
| LogsApiClient.QueryParamValues | logs_api/client.py:65-77 | each parameter holds its argument, `date_dimension` is `default`, and the counters are present only for more than one part |
| LogsApiClient.CountersAdded | logs_api/client.py:73-77 | adding the counters changes only their two entries |
| LogsApiClient.ExportRequest | logs_api/client.py:55-78 | the request goes to the export URL with distinct parameters carrying the application, the day bounds, the comma-joined fields, the token and the counters |
| LogsApiClient.FieldsRoundTrip | logs_api/client.py:70 | the comma-joined field list splits back into the fields when no field holds a comma |
| LogsApiClient.CheckStatus | logs_api/client.py:79-81 | the answer is used exactly when the status is 200; any other status is reported with its status and text |
| ExportLoader.DigitRun | logs_api/loader.py:33 | the greedy `\d+`: digits only, and followed by the end of the line or a non-digit |
| ExportLoader.ErrorText | logs_api/loader.py:68 | the status in brackets, then a space, then the text |
| ExportLoader.ProcessError | logs_api/loader.py:43-69 | an error exactly for a status other than 202, 429 and a 400 asking for more parts, reported as `[status] text`; a 400 doubles the parts and restarts at part zero; only a 202 changes the progress, to the one its text reports |
| ExportLoader.ProcessErrorKeepsValid | logs_api/loader.py:43-69 | the part count stays a power of two and the part number stays within it |
| ExportLoader.LoadRun | logs_api/loader.py:71-101 | a load ends with valid counters, and it has finished exactly when the part number reached the part count |
| ExportLoader.LoadFrom | logs_api/loader.py:77-101 | chunks already yielded are never taken back |
| ExportLoader.YieldChunks | logs_api/loader.py:90-93 | the part's chunks up to a broken connection are yielded after the earlier ones, in order |
| ExportLoader.Load | logs_api/loader.py:71-101 | the loop's run is the specified run; the counters stay valid, and the load finishes exactly when every part was read |
| ExportLoader.LoadKeepsValid | logs_api/loader.py:77-101 | from any valid counters the loop keeps them valid, and it finishes exactly when the part number reaches the part count |
| ExportLoader.CurrentSplitInOrder | logs_api/loader.py:77-101 | without broken connections the chunks end with every part read so far of the current split, in part order |
| ExportLoader.NextPartAppended | logs_api/loader.py:90-94 | reading one more part appends its chunks after the earlier parts |
| ExportLoader.RefusalKeepsSplit | logs_api/loader.py:95-98 | a refused request that is retried leaves the parts read of the (possibly new) split at the end of the chunks |
| ExportLoader.LoadYieldsFinalSplit | logs_api/loader.py:71-101 | a finished load without broken connections ends with all parts of the final split, in order |
| ExportLoader.SingleAnswer | logs_api/loader.py:74-94 | a first answer that is delivered whole finishes the load with the single part's chunks |
| ExportLoader.ProgressReadsBack | logs_api/loader.py:33-50 | a first line reporting `Progress is N%` yields N |
| ExportLoader.ProgressStartsAt | logs_api/loader.py:33 | a `Progress is N%` written at a position matches there with N |
| ExportLoader.NothingAfter | logs_api/loader.py:33 | positions holding no `P` start no match, so the greedy `.*` picks the last real one |
| ExportLoader.DigitRunIs | logs_api/loader.py:33 | `\d+` takes exactly the digits written before a non-digit |
| ExportLoader.NatToStringValue | logs_api/loader.py:50 | `int` of a number's decimal text is the number |
| Clickhouse.Auth | db/clickhouse.py:33-37 | no authentication exactly when the login is empty, otherwise the login and the password |
| Clickhouse.LogText | db/clickhouse.py:40-43 | the logged query has no line break, is the query's length up to 200 characters, else 200 characters and `[...]`, each kept character being the query's with a line break made a blank |
| Clickhouse.ReplaceOneChar | db/clickhouse.py:43 | replacing a character by one character keeps the length and every other character |
| Clickhouse.QueryAnswer | db/clickhouse.py:47-50 | the answer's body is returned exactly for status 200; any other status is an error carrying the body |
| Clickhouse.ListedIff | db/clickhouse.py:57-75 | a plain name is found in a listing of plain names exactly when it is one of them |
| Clickhouse.StripListing | db/clickhouse.py:59-74 | stripping a listing leaves its names joined by line breaks |
| Clickhouse.EngineArgsShape | db/clickhouse.py:84-97 | with a sampling field the engine takes the date, `cityHash64(s)`, the key tuple ending in `cityHash64(s)` and 8192; without one the date, the key tuple and 8192 |
| Clickhouse.ColumnTexts | db/clickhouse.py:102-103 | one `name type` text per column, in order |
| Clickhouse.FieldsTextSplits | db/clickhouse.py:102-103 | the column list splits back into its columns when no name or type holds a comma |
| Clickhouse.CreateLikeQuery | db/clickhouse.py:160-170 | no second query exactly when the answer is empty |
| Clickhouse.CreateLikeRenames | db/clickhouse.py:166-169 | the header is renamed to the new table and the rest of the statement is kept |
| Clickhouse.CreateLikeUnchanged | db/clickhouse.py:166-169 | an answer that does not name the source table is sent back unchanged |
| Clickhouse.UnescapePlain | db/clickhouse.py:172-175 | uploaded text without backslashes is stored as it is |
| Clickhouse.ReadRow | db/clickhouse.py:172-175 | a stored row has the uploaded row's columns |
| Clickhouse.ReadRows | db/clickhouse.py:172-175 | each uploaded row is stored, in order |
| Clickhouse.Absent | db/clickhouse.py:189-207 | exactly the source rows whose key is not taken, never more rows than the source |
| Clickhouse.AbsentAppend | db/clickhouse.py:189-207 | the filter keeps order: the rows kept from two runs are the first run's followed by the second's |
| Clickhouse.AbsentNone | db/clickhouse.py:189-207 | rows whose keys are all taken add nothing |
| Clickhouse.CopyDistinctIdempotent | db/clickhouse.py:189-207 | copying the same rows a second time adds nothing |
| Clickhouse.DistinctInsertionEffect | db/clickhouse.py:209-214 | the target gains exactly the uploaded rows whose key it lacked, its earlier rows unchanged; the temporary table holds only this upload; no other table changes |
| Clickhouse.InsertDistinctSteps | db/clickhouse.py:209-214 | the drop, create-like, insert and copy steps together make the distinct insertion |
| Clickhouse.CreatedLike | db/clickhouse.py:211-212 | the recreated temporary table is empty and last, and the target is unchanged |
| Clickhouse.ClickhouseDatabase.constructor | db/clickhouse.py:27-31 | the client holds its connection settings and talks to the given server state, whose tables are named once each and exist only in an existing database (`Valid`); every mutator below keeps `Valid` |
| Clickhouse.ClickhouseDatabase.DatabaseExists | db/clickhouse.py:57-60 | the database is among the listed lines, that is, among the server's databases for plain names |
| Clickhouse.ClickhouseDatabase.CreateDatabase | db/clickhouse.py:68-70 | refused when the database exists; otherwise it is added and nothing else changes |
| Clickhouse.ClickhouseDatabase.DropDatabase | db/clickhouse.py:62-66 | the database is gone with all its tables; the other databases stay |
| Clickhouse.ClickhouseDatabase.TableExists | db/clickhouse.py:72-75 | fails for a missing database; otherwise the table is among the listed lines |
| Clickhouse.ClickhouseDatabase.DropTable | db/clickhouse.py:77-82 | the table is removed when present; nothing else changes |
| Clickhouse.ClickhouseDatabase.CreateTable | db/clickhouse.py:99-115 | refused for a missing database or an existing table; otherwise a new empty table with the columns and the engine of `_table_engine` is added last |
| Clickhouse.ClickhouseDatabase.IsValidScheme | db/clickhouse.py:141-155 | fails for a missing table; otherwise true exactly when the wanted columns appear in order and together among the table's |
| Clickhouse.ClickhouseDatabase.CreateTableLike | db/clickhouse.py:160-170 | with the source present and the new name free, an empty copy of the source is added; otherwise nothing changes |
| Clickhouse.ClickhouseDatabase.Insert | db/clickhouse.py:172-175 | the uploaded rows are appended to an existing table; a missing table fails and nothing changes |
| Clickhouse.ClickhouseDatabase.CopyDataDistinct | db/clickhouse.py:189-207 | with both tables present the target gains the source rows whose key it lacks; otherwise nothing changes |
| Clickhouse.ClickhouseDatabase.InsertDistinct | db/clickhouse.py:209-214 | for an existing table the result is the distinct insertion; otherwise only the temporary table is dropped |
| DbControllers.TempTableName | updater/db_controller.py:58-60 | the table's name followed by `_tmp`, never the table itself |
| DbControllers.UpToQuoteOf | updater/db_controller.py:62-68 | reading up to the closing quote gives back the quoted text |
| DbControllers.ReadQuotedOf | updater/db_controller.py:62-68 | a quoted name reads back as itself, followed by the rest |
| DbControllers.ReadSamplingOf | updater/db_controller.py:62-68 | the sampling column, or `None`, reads back as itself |
| DbControllers.ReadPairOf | updater/db_controller.py:62-68 | a column and its type read back as themselves |
| DbControllers.ReadPairsOf | updater/db_controller.py:62-68 | the columns with their types read back in order |
| DbControllers.ReadTupleOf | updater/db_controller.py:62-68 | the tuple of column types, with the trailing comma of a one-element tuple, reads back |
| DbControllers.ReadFieldTypesOf | updater/db_controller.py:62-68 | the text of the column types, empty or not, reads back as the column types |
| DbControllers.SchemeReadsBack | updater/db_controller.py:62-68 | the scheme text reads back as the date column, the sampling column and the column types |
| DbControllers.SchemeIff | updater/db_controller.py:62-68 | two plain definitions have the same scheme text exactly when their date column, sampling column and column types agree |
| DbControllers.EscapeChar | updater/db_controller.py:25-34 | an escaped character is never empty |
| DbControllers.Escape | updater/db_controller.py:25-34 | the intended one-pass escape leaves no raw control character; its read-back is EscapeReadsBack |
| DbControllers.EscapeReadsBack | updater/db_controller.py:25-34 | the server's reading of a text escaped in one pass is the text (the corrected escape; see Findings) |
| DbControllers.EscapeAsWrittenAppend | updater/db_controller.py:102-110 | the chained replace of `_escape_data` works piece by piece: the escape of two texts joined is their escapes joined |
| DbControllers.EscapeAsWrittenChar | updater/db_controller.py:25-34 | through the eight rules in dict order, a character of the first seven rules becomes two backslashes and its letter, a backslash two backslashes, any other character itself |
| DbControllers.StoredAsWritten | updater/db_controller.py:102-125 | what the server stores for a text escaped as `_escape_data` does it: each character of the first seven rules comes back as a backslash and its letter |
| DbControllers.StoredTextIff | updater/db_controller.py:102-125 | the server gets the text back exactly when it holds none of the characters of the first seven rules |
| DbControllers.AsWrittenAgrees | updater/db_controller.py:102-110 | on a text without those characters the chained replace is the one-pass escape |
| DbControllers.NewlineStoredAsLetters | updater/db_controller.py:102-125 | for `a`, newline, backslash the chained replace writes `a\\n\\` (two backslashes each time) and the server stores `a\n\` (a backslash and the letter n, then a backslash), not the text |
| DbControllers.EscapeCharReadsBack | updater/db_controller.py:25-34 | one escaped character reads back as itself, whatever follows |
| DbControllers.EscapeRow | updater/db_controller.py:102-110 | an escaped row keeps its columns |
| DbControllers.EscapeData | updater/db_controller.py:102-110 | the same columns and rows, each row escaped in the `String` columns holding text |
| DbControllers.EscapeDataCells | updater/db_controller.py:102-110 | a cell of an escaped column stays text exactly when it was and has no raw control character; other cells are unchanged |
| DbControllers.EscapedRowReadsBack | updater/db_controller.py:102-119 | a row escaped in one pass is read by the server as the row it was made from |
| DbControllers.Upload | updater/db_controller.py:98-119 | fails exactly when an export column is missing from the frame, naming it; otherwise one row per frame row |
| DbControllers.UploadReadsBack | updater/db_controller.py:98-125 | with the intended one-pass escape, the server stores the frame's rows cut to the export columns, in order |
| DbControllers.InsertDataEffect | updater/db_controller.py:116-128 | the table gains exactly the uploaded rows with new unique keys; after cleanup the temporary table is gone and no other table changed |
| DbControllers.DbController.constructor | updater/db_controller.py:38-40 | the controller talks to the given server about the given definition |
| DbControllers.DbController.Prepare | updater/db_controller.py:70-96 | afterwards the database and the table exist; an acceptable table is kept untouched; a missing or unacceptable one is replaced by a new empty one |
| DbControllers.DbController.InsertData | updater/db_controller.py:116-125 | a missing export column is an error that changes nothing; otherwise the upload succeeds exactly when the table exists and then is the distinct insertion through `{table}_tmp`; when the table is missing only `{table}_tmp` has been dropped |
| DbControllers.DbController.Cleanup | updater/db_controller.py:127-128 | the temporary table goes, and nothing else |
| DbControllers.DbControllersCollection.constructor | updater/db_controllers_collection.py:24-27 | no controller is kept yet |
| DbControllers.DbControllersCollection.ControllerFor | updater/db_controllers_collection.py:29-38 | a kept controller is returned with nothing changed; otherwise a new controller for the source's definition is prepared, kept only when that succeeds, and the server is left as `prepare` leaves it: database and table present on success, an acceptable table kept, any other replaced by a new empty one |
| FieldCatalogue.IntegerTypesFilled | fields/db_types.py:16-41 | the integer and boolean column types contain `Int`, so `_ensure_types` fills their empty cells; string, date and date-time types do not |
| FieldCatalogue.SystemDefined | fields/helpers.py:30-35 | always loaded, computed by the loader, no converter, with the given names and type |
| FieldCatalogue.GeneratedOr | fields/helpers.py:41-54 | without an explicit flag a field is generated exactly when it has a converter |
| FieldCatalogue.Required | fields/helpers.py:38-47 | always loaded, with the given converter, generated by default exactly when it has one |
| FieldCatalogue.OptionalField | fields/helpers.py:50-59 | loaded only on request, with the given converter, generated by default exactly when it has one |
| Common.TextLeReflexive | fields/source.py:30 | the order on load names is reflexive |
| Common.TextLeTotal | fields/source.py:30 | any two load names are ordered one way or the other |
| Common.TextLeTransitive | fields/source.py:30 | the order on load names is transitive |
| FieldCatalogue.Insert | fields/source.py:30 | inserting adds exactly the one field |
| FieldCatalogue.SortByName | fields/source.py:30 | the sorted fields are a permutation of the fields |
| FieldCatalogue.InsertSorted | fields/source.py:30 | inserting into fields in load-name order keeps them in order |
| FieldCatalogue.SortByNameSorted | fields/source.py:30 | the sorted fields are in load-name order |
| FieldCatalogue.InsertNamed | fields/source.py:30 | insertion puts a field before the fields of its own name |
| FieldCatalogue.SortByNameStable | fields/source.py:30 | the sort is stable: the fields of each name keep their relative order |
| FieldCatalogue.NewSource | fields/source.py:19-30 | a source keeps its settings and holds its fields sorted by load name, stably, as a permutation |
| FieldCatalogue.Selected | fields/collection.py:23-24 | exactly the catalogue's fields that are required or requested |
| FieldCatalogue.SelectedPrefix | fields/collection.py:23-24 | selecting from a prefix of the catalogue gives a prefix of the selection, so the catalogue order is kept |
| FieldCatalogue.NamedIn | fields/collection.py:26 | exactly the selected fields whose load name is a key name |
| FieldCatalogue.CollectionKeys | fields/collection.py:22-29 | the key fields are selected fields: those named as keys when any is, and all of them otherwise, never none of a non-empty selection |
| FieldCatalogue.LoadNames | fields/collection.py:31-32 | exactly the load names of fields that are fetched, not generated |
| FieldCatalogue.LoadNamesAppend | fields/collection.py:31-32 | the names keep the fields' order: two runs give the first run's names followed by the second's |
| FieldCatalogue.DbFields | fields/collection.py:34-35 | each field's column and type, in order |
| FieldCatalogue.DbKeys | fields/collection.py:37-38 | each key field's column, in order |
| FieldCatalogue.ExportKeys | fields/collection.py:40-41 | each field's load name, in order |
| FieldCatalogue.Converters | fields/collection.py:43-45 | exactly the load names and converters of the fields that have one |
| FieldCatalogue.ConvertersAppend | fields/collection.py:43-45 | the converters keep the fields' order, so a later field's converter comes later |
| FieldCatalogue.KeysAreDbFields | fields/collection.py:22-38 | every key column is one of the database columns |
| FieldCatalogue.ResolvedConverters | fields/collection.py:43-45 | one converter column per named converter, in order |
| FieldCatalogue.SortedCollectionFields | fields.py:32-53 | the older collection's fields are in load-name order and are the fields the newer one selects |
| FieldCatalogue.SelectedSorted | fields.py:34-35 | selecting from fields in load-name order keeps that order |
| UpdaterPipeline.TableSuffixIff | updater/updater.py:97 | two partitions share a suffix exactly when they are the same application's same day |
| UpdaterPipeline.EnsuredTypesCells | updater/updater.py:37-46 | the same columns and rows; an empty cell of a present integer-typed column becomes 0 and every other cell is unchanged |
| UpdaterPipeline.FillCellStep | updater/updater.py:44 | filling one more column fills the union of the columns |
| UpdaterPipeline.IntColumnsStep | updater/updater.py:39-43 | one more type entry adds its column exactly when the frame has it and its type contains `Int` |
| UpdaterPipeline.EnsureTypes | updater/updater.py:37-46 | the loop over the types gives the frame with every integer-typed column's empty cells set to 0 |
| UpdaterPipeline.Converted | updater/updater.py:56-62 | the converters keep the number of rows |
| UpdaterPipeline.ConvertedKeeps | updater/updater.py:56-62 | a column no converter writes keeps its cells |
| UpdaterPipeline.ConvertedSplit | updater/updater.py:60-61 | applying the converters is applying the first ones, then the rest |
| UpdaterPipeline.ConvertedWrites | updater/updater.py:60-61 | the last converter writing a column decides it, from the frame the earlier converters left |
| UpdaterPipeline.ApplyConverters | updater/updater.py:56-62 | the loop applies each converter, in order |
| UpdaterPipeline.ProcessData | updater/updater.py:64-70 | the chunk with its types ensured, the system columns added and the converters applied |
| UpdaterPipeline.ProcessedCells | updater/updater.py:49-70 | the rows are kept; unless a converter overwrites them, `app_id` holds the application, `load_datetime` the load time, and no integer column has an empty cell |
| UpdaterPipeline.ProcessedChunksAt | updater/updater.py:102-105 | one upload per chunk: the k-th chunk processed, stamped with the clock's k-th reading of the day |
| UpdaterPipeline.InsertsAt | updater/updater.py:102-106 | the k-th insert carries the k-th frame into the day's partition |
| UpdaterPipeline.DateEventsAt | updater/updater.py:92-106 | a day recreates its partition, then exports the whole day, then inserts each processed chunk in order |
| UpdaterPipeline.RangeEventsStep | updater/updater.py:113-116 | one more day of the range adds that day's events at the end |
| UpdaterPipeline.RecreatedAppend | updater/updater.py:113-116 | the partitions recreated by two runs of events are those of each, in order |
| UpdaterPipeline.RecreatedInserts | updater/updater.py:102-106 | inserting recreates no partition |
| UpdaterPipeline.DateRecreates | updater/updater.py:92-106 | one day recreates exactly its own partition |
| UpdaterPipeline.Days | updater/updater.py:113 | the given number of consecutive days, ascending |
| UpdaterPipeline.RangeRecreatesDays | updater/updater.py:108-116 | `update` recreates the partition of each day of the range once, in ascending order |
| UpdaterPipeline.RecreateBeforeInsert | updater/updater.py:92-116 | every insert into a partition comes after that partition was recreated |
| UpdaterPipeline.ExportWindow | updater/updater.py:95-96 | the day's export window runs from its first to its last microsecond, both on that day |
| UpdaterPipeline.Updater.constructor | updater/updater.py:29-34 | a new, empty controller collection over the given server: no controller is kept and nothing has happened yet |
| UpdaterPipeline.Updater.CachedController | updater/updater.py:72-81 | a kept controller is returned with nothing changed; otherwise a new controller is prepared, kept when that succeeds, and the server is left as `prepare` leaves it: database and table present on success, an acceptable table kept, any other replaced by a new empty one |
| UpdaterPipeline.Updater.UpdateDate | updater/updater.py:92-106 | the day's recreate, export and the inserts of every chunk the loader yielded are appended, in order; the day succeeds exactly when the loader did not raise, so a failing load keeps the chunks inserted before it |
| UpdaterPipeline.Updater.UpdateDays | updater/updater.py:113-116 | the loop runs the days as `RunDays` specifies (ascending, up to and including the first whose load raises) and appends the events of exactly the days it ran, in order |
| UpdaterPipeline.RunDaysFacts | updater/updater.py:113-116 | the run succeeds exactly when no day of the range fails; otherwise its last day is a failing one and every earlier day loaded |
| UpdaterPipeline.RunDaysStops | updater/updater.py:113-116 | once a day fails, the days after it change nothing |
| UpdaterPipeline.RunDaysStep | updater/updater.py:113-116 | one more day is run exactly when every earlier day loaded |
| UpdaterPipeline.UpdateRange | updater/updater.py:108-116 | over `date_from` to `date_to`: success exactly when no day fails, and then every day ran; otherwise the run ends at its first failing day |
| UpdaterPipeline.Updater.Update | updater/updater.py:108-116 | with a kept or prepared controller, the days from `date_from` to `date_to` run as `RunDays` specifies (so, by `UpdateRange`, success exactly when no day fails) and the events of the days that ran are appended in order; a failed prepare fails with no events |
| UpdatesControlling.DispatchRecognised | updater/updates_controller.py:64-77 | a request of a known type makes one call per source, in the sources' order, of the kind and on the table its type names |
| UpdatesControlling.DispatchLength | updater/updates_controller.py:64-77 | a request of a known type makes exactly one call per source |
| UpdatesControlling.DispatchUnrecognised | updater/updates_controller.py:64-77 | a request of any other type makes no call |
| UpdatesControlling.SchedulerTypesRecognised | updater/scheduler.py:26-28 | every type the scheduler uses is known to the controller, and distinct types have distinct names |
| UpdatesControlling.RoundCalls | updater/updates_controller.py:64-91 | a round completes a prefix of the calls of all its requests, of the length its failure point gives, and all of them when nothing raises |
| UpdatesControlling.StepCallsPrefix | updater/updates_controller.py:79-82 | handling fewer requests makes a prefix of the calls |
| UpdatesControlling.RoundCallsPrefix | updater/updates_controller.py:64-91 | a round that fails inside a request completes every call of the earlier requests and the calls for the first sources of that request, and no others |
| UpdatesControlling.FirstSourceOnly | updater/updates_controller.py:64-91 | with two sources, a load that raises on the second source's call has loaded the day into the first source's table only |
| UpdatesControlling.RunContinues | updater/updates_controller.py:84-91 | a failed round does not stop the loop: the rounds after it make all their calls |
| UpdatesControlling.RunStep | updater/updates_controller.py:84-91 | one more round adds the calls it completed and counts one more pause exactly when it failed |
| UpdatesControlling.UpdatesController.constructor | updater/updates_controller.py:26-30 | no calls and no pauses yet |
| UpdatesControlling.UpdatesController.Update | updater/updates_controller.py:64-77 | the request's calls for the sources are appended in order; the updater raises exactly when its budget of calls ends before the request's, and then only the calls before the raising one are made |
| UpdatesControlling.UpdatesController.Step | updater/updates_controller.py:64-82 | the calls the round completes are appended, in order, and the round fails exactly when an exception is given for it |
| UpdatesControlling.UpdatesController.Run | updater/updates_controller.py:84-91 | the calls of each round up to its failure, which may fall between two sources of one request, are appended and one pause is counted per failed round |

## Left out

- HTTP and transport (`requests`, the Logs API, the ClickHouse HTTP interface): answers are inputs. An export is a script of outcomes plus the chunks of each part. A ClickHouse answer is the state of a `ClickhouseDatabase`.
- CSV reading and writing by pandas (`read_csv` with its chunking and decompression, `to_csv` quoting): a frame is rows of named cells. The TabSeparated upload is modelled by the server's backslash unescaping only.
- The real clock and time zones: `now`, `today` and `utcnow` are parameters. Local-time and UTC reads are not told apart.
- `time.sleep` and logging: the pause of `run` after an exception is counted, not timed.
- The endless `while True` of `UpdatesController.run`: modelled over a given finite list of rounds.
- Float arithmetic of POSIX timestamps: a timestamp is an exact `real`. Truncation to whole seconds is explicit where `int(...)` does it. `fromtimestamp` rounds to the nearest microsecond, half to even, on the exact value; the rounding error of the double `ts * 1e6` is not modelled.
- pandas dtypes and `astype`: `_ensure_types` is modelled as filling empty cells of integer-typed columns with 0. The cast itself is not modelled.
- DbControllers.EscapeData: the cells are escaped by the intended one-pass `Escape`. `_escape_data` runs the eight rules one after another, so its backslash rule doubles the backslash each earlier rule wrote (`EscapeAsWritten`, see Findings). EscapeRow, EscapedRowReadsBack, Upload and UploadReadsBack are therefore about the intended escape; what the program as written stores is `StoredAsWritten`.
- DbControllers.EscapeAsWritten: each rule is `re.sub` with a one-character pattern over a text cell. The chaining follows pandas' `replace` with a list of patterns as the pandas of the source's era runs it, applying each pair to what the previous pair left. Later pandas releases compute each pattern's matches on the original cell; there a cell with a control character and no backslash reads back intact, so `StoredTextIff` holds for the earlier behaviour only. The Findings input holds a backslash, and its backslash is doubled under either behaviour. Cells that are not text are left alone, as `re.sub` is applied only to strings.
- Clickhouse.ClickhouseDatabase.IsValidScheme: the regular-expression search over `SHOW CREATE TABLE` is modelled as the wanted columns appearing consecutively, with exactly their types, among the table's columns. The search is unanchored, so the source also accepts cases the model rejects: a wanted name that is the tail of a longer column name (`date` inside `event_date`), a last wanted type that is a prefix of the real one (`Date` inside `DateTime`), and whitespace variants of the text.
- `rename_table`, `create_merge_table`, `copy_data` and `query` of db/clickhouse.py: no modelled caller uses them.
- `LogsApiClient.app_creation_date` (logs_api/client.py:34-53): a network call whose answer handling calls `json.load` on a string.
- The catalogue tables `fields/declaration.py` and `fields_declaration.py`, and the converters of `fields/converters.py`. Field lists are parameters. A converter is a function of a row, and fields carry only its name.
- run.py, logs_api.py, settings.py, last_update_time.py, db.py, db/db.py, state/storage.py and the `__init__.py` files: entry points, configuration, interfaces and re-exports.
- Scheduling.Scheduler.UpdateRequests: every clock read after the run starts (each mark and the finish stamp) is one instant, `markTime`. The source reads the clock again at each mark.
- Scheduling.Scheduler.UpdateRequests: the methods assume the consumer of the generator handles every request. A consumer that raises at request k is covered by the `Step.after` snapshots and by `SchedulerFacts.InterruptedRun`, not by the methods' contracts.
- ExportLoader.Load: the script of answers is finite. A load that runs out of answers ends with `OutOfResponses`, where the source would go on asking.
- Calendar.ParseDate: `\d` in the `strptime` patterns is taken as an ASCII digit. Python's `re` also matches the other Unicode decimal digits there, which `int` then reads.
- FileStorage.DecodeAppFields: `app_id` must be a string and `inited` a boolean. Python stores whatever value the file holds there, and the record's `string` and `bool` fields cannot hold another kind.
- FileStorage.DecodeApps: an item whose `app_id` is not a string or whose `inited` is not a boolean is an error here, as FileStorage.DecodeAppFields says; Python stores it.
- JsonState.ParseState: an application whose `app_id` is not a JSON string fails to parse (`JsonState.AppFromMembers`). `AppIdState(json_object["app_id"], ...)` stores any value there, and the record's `string` field cannot hold another kind. The encoder writes only strings, so the round trips are not affected.
- Calendar.Window: `pd.date_range` builds pandas timestamps, which reach only from 1677-09-21 to 2262-04-11; a window outside those days raises `OutOfBoundsDatetime` in the source. The model fails only where `date_to - update_limit` leaves years 1 to 9999 (`Scheduling.Scheduler.UpdateApp`, `LegacyState.StateController.AppDates`, `LegacyUpdating.LegacyUpdater.Update`).
- Scheduling.Scheduler.constructor: `update_limit` is a whole number of days, as settings.py:28 builds it. A `timedelta` with a part of a day is not modelled.
- FileStorage.Load: loads differ from Python's only on the two kinds of value named under FileStorage.DecodeAppFields and FileStorage.DecodeOrdinal.
- FileStorage.DecodeOrdinal: JSON numbers are exact reals with no `int`/`float` distinction. An ordinal written as `737000.0`, which Python reads as a float that `date.fromordinal` refuses, is accepted here.
- LegacyStorage.Merge: keys of the file other than the three `State` attributes are dropped. Python keeps them as attributes and `save` writes them back, so they survive a load and save here only in the program. A list element whose key is not a string is dropped for the same reason.
- LegacyStorage.LoadLegacy: a file value of a type a `State` attribute cannot hold is an error here. Python's `__dict__.update` would store it unchecked and fail later.
- Clickhouse.ClickhouseDatabase.Insert: `ReadRow` keeps the cells under the uploaded names, while `FORMAT TabSeparatedWithNames` skips the header and fills the table's columns by position. The two agree only when a definition's `export_fields` are its table's columns in the same order. The first-generation updater, whose export names differ from its database names, places the cells by position (`LegacyUpdating.LoadRow`).
- UpdaterPipeline.Updater.UpdateDate: the loader's stream for a day is the parameter `load`, the chunks it yields and then whether it raised. It is not derived from `ExportLoader.Load`, whose run is modelled on its own.
- LegacyUpdating.LegacyUpdater.ProcessDate: table engines, column types and the `GLOBAL IN` distribution are not kept. The database is tables by name, each a sequence of rows.
- Mismatches between the source's generations, each modelled on its own side:
  - `Updater.update` is defined as `(source, app_id, date_from, date_to)` (updater/updater.py:108). The controller calls it as `(source, app_id, date, suffix)` (updater/updates_controller.py:45-50).
  - `Updater.archive` is called (updater/updates_controller.py:59) but defined nowhere.
  - `DbController.ARCHIVE_SUFFIX` and `DbController.recreate_table` are used (updater/updates_controller.py:77, updater/updater.py:98) but `updater/db_controller.py` defines neither.
  - updater/updater.py:106 calls `insert_data(upload_df, suffix)`, but `insert_data` takes one frame (updater/db_controller.py:116).
  - updater/updater.py:100-101 passes `LogsApiClient.DATE_DIMENSION_CREATE` and a fifth argument to `Loader.load`. Neither exists; the client always sends `date_dimension=default` (logs_api/client.py:69).
  - `LogsApiPartsCountError` is imported (logs_api/__init__.py:13) but not defined in logs_api/loader.py.
  - `AppIdState.date_updates`, which the scheduler writes, is not among the `__slots__` of state/state.py:32-37.
  - `_parse_app_id_state` passes the parsed `date_updates` as the positional `inited` argument (state/json_serialization.py:65). The model follows the scheduler's `(app_id, date_updates)` view.
  - state/controller.py uses `db_scheme` and `date_update_time`, which exist only on the `State` of state_storage.py:22-26. The model uses that `State`.
  - The `StateController` of state_storage.py repeats state/controller.py with `api_key` for `app_id`. It is modelled once, as `LegacyState.StateController`.
  - Because of the first four, the calls the updates controller and the updater make are recorded, in order, as events, and not given a meaning.

## Findings

| source | as written | input that shows it | evidently intended | confidence | as-written member | corrected member |
|---|---|---|---|---|---|---|
| updater/db_controller.py:102-110 | `_escape_data` applies the pairs of `_escape_characters` one after another, and the backslash rule, last in the dict, doubles the backslash of every escape the earlier rules wrote | a `String` cell holding `a`, newline, backslash: the server stores `a`, backslash, `n`, backslash | the server stores every control character, quote and backslash of the cell as it was | not executed; rests on pandas' `replace` applying a list of patterns pair after pair | DbControllers.NewlineStoredAsLetters | DbControllers.EscapeReadsBack |
