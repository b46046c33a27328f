# ForgeLog event-logging core in Dafny

ForgeLog is a personal activity log. A command such as `log workout` or
`log guitar` turns a request into one `Event` row plus its `EventMetric`
rows, and it commits them together. `today` selects the events whose
timestamp falls on the current calendar day, with their metrics and tags
loaded. The export formatter turns loaded events into a versioned document
for a summariser.

The project models that core as immutable values and pure functions:

| file | module | what it models |
|---|---|---|
| `wrappers.dfy` | `Wrappers` | `Option`, with `:-` propagation, and `Result` |
| `config.dfy` | `Config` | the `EventTypes`, `GuitarFocus` and `TimeRange` enumerations and their string values |
| `calendar.dfy` | `Calendar` | proleptic Gregorian dates, the `DD-MM-YYYY` rendering used in titles, and the microsecond window of one day |
| `entity_store.dfy` | `EntityStore` | the `event`, `event_metric`, `tag` and `event_tag` tables as maps with their key, foreign-key, NOT NULL and unique constraints; the atomic commit; cascade deletes; eager loading |
| `sorting.dfy` | `Sorting` | an insertion sort by an integer key (the `ORDER BY`) |
| `events.dfy` | `Events` | `log_workout`, `log_guitar`, `log_activity` and `select_events_today` |
| `serialization.dfy` | `Serialization` | `event_metric_to_dict`, `tag_to_dict`, `event_to_dict`, `format_events_as_json` and `format_events_today_as_json`, producing a JSON-like value, plus a decoder as their partner |
| `commands.dfy` | `Commands` | the guards of the `log` subcommands: which requests reach the loggers |

Some inputs are parameters rather than effects:

- The database's id allocator is one counter per table inside the store value.
- The clock reading used for `server_default=func.now()` is a parameter `now`.
- The current date (`get_date()`) is a parameter `today`.
- The formatting instant behind `generated_at` is a parameter `generatedAt`.

Instants are integers counting microseconds since 0001-01-01T00:00 in one
reference zone. A stored value that must satisfy a database constraint is
checked by the store. A violation yields `Failure` with the violated column,
and the store is left unchanged. This models the rollback of the whole unit
of work.

Where the code is inconsistent with itself, the model follows what runs:

- **Activity metric unit.** An activity metric carries no unit, as in
  `services/events.py:96`.
- **Activity event type.** The activity logger uses an `ACTIVITY` event type
  (`services/events.py:88`) that the enumeration in `config.py:7-12` lacks.
  The model adds an `Activity` variant with the value `"activity"`. It keeps
  `DeclaredEventTypes` as the five members the enumeration does declare.
- **Metrics without a value.** The guitar and activity loggers accept
  `value=None` (`services/events.py:59`, `services/events.py:83`). The column
  is NOT NULL (`model.py:56`), so their commit fails and writes nothing.

## Model

| member | source | states |
|---|---|---|
| Config.EventTypeValue | config.py:8-12 | every event type has a non-empty string value; the values themselves are pinned by `DeclaredEventTypesAreFive` (the set of the five declared values) and by `EventTypeRoundTrip` |
| Config.EventTypeRoundTrip | config.py:7-12 | reading back the string value of any event type gives that type |
| Config.EventTypeValueInjective | config.py:7-12 | two event types have the same value exactly when they are the same type |
| Config.DeclaredEventTypesAreFive | config.py:7-12 | the enumeration declares five members; their values are distinct and are exactly guitar, harmonica, note, study and workout; `Activity` is not among them |
| Config.ParseEventType | config.py:7-12 | a value that parses belongs to the type it names |
| Config.GuitarFocusValue | config.py:22-26 | every focus has a non-empty string value; the values themselves are pinned by `GuitarFociAreFive` and by `GuitarFocusRoundTrip` |
| Config.GuitarFociAreFive | config.py:21-26 | the focus enumeration has exactly five members, every focus is one of them, their values are pairwise distinct and the set of values is exactly course, scale, song, writing and theory |
| Config.GuitarFocusRoundTrip | config.py:21-26 | reading back a focus value gives that focus |
| Config.GuitarMetricName | services/events.py:72 | a guitar metric name starts with `guitar_` and has a non-empty focus part |
| Config.GuitarMetricNameInjective | config.py:21-26 | distinct foci give distinct `guitar_<focus>` metric names, and equal names mean equal foci |
| Config.TimeRangeValue | config.py:16-18 | every time range has a non-empty string value; the values themselves are pinned by `TimeRangesAreThree` and by `TimeRangeRoundTrip` |
| Config.TimeRangesAreThree | config.py:15-18 | the time-range enumeration has exactly three members, every range is one of them, their values are pairwise distinct and the set of values is exactly today, week and month |
| Config.TimeRangeRoundTrip | config.py:15-18 | reading back a time-range value gives that range |
| Calendar.StartOfDay | services/events.py:105 | `datetime.min.time()` of a date is the first instant of that calendar day: it falls on the date and the instant before it falls on the previous day |
| Calendar.EndOfDay | services/events.py:106 | `datetime.max.time()` of a date is the last instant of that calendar day: it falls on the date and the instant after it falls on the next day |
| Calendar.DayWindowIsCalendarDay | services/events.py:105-109 | an instant lies in the inclusive window from midnight to 23:59:59.999999 exactly when it falls on that calendar day |
| Calendar.OrdinalIncreasing | services/events.py:105-106 | a later calendar date has a larger day number |
| Calendar.DayWindowsDisjoint | services/events.py:105-109 | no instant lies in the windows of two different dates |
| Calendar.FormatDate | services/events.py:23 | `strftime('%d-%m-%Y')` always yields ten characters |
| Calendar.ParseFormatRoundTrip | services/events.py:23 | the rendered date has the `DD-MM-YYYY` shape, and parsing it gives back the date |
| Calendar.FormatDateInjective | services/events.py:23 | two valid dates render alike exactly when they are equal |
| EntityStore.Valid | model.py:14-104 | the schema's constraints as one invariant: every row is keyed by its primary key and below the table's allocator; `timestamp`, `created_at` and `event_metric.event_id` are never null; every metric and association points at an existing event and tag; tag names are unique |
| EntityStore.EmptyStore | model.py:14-113 | the empty database satisfies every constraint of the schema |
| EntityStore.Commit | services/events.py:30-51 | an event and its metrics are committed together: the commit fails with a NOT NULL violation on `event_metric.value` exactly when some metric lacks a value, and then nothing is written; otherwise the store gains exactly the fresh event and exactly its metrics, in order, keeps every earlier row and is again valid |
| EntityStore.CommitKeepsValid | model.py:14-63 | adding a fresh event and metrics owned by it keeps keys, foreign keys and NOT NULL columns intact, and the event's loaded metrics are exactly the appended rows |
| EntityStore.MetricsOfExact | model.py:30-32 | an event's `metrics` collection holds exactly the metric rows whose `event_id` is that event |
| EntityStore.MetricsOf | model.py:30-32 | every metric in an event's loaded collection is a stored row owned by that event, and the collection is in strictly increasing id order |
| EntityStore.LinksOfBelow | model.py:33-36 | each loaded association is a stored `event_tag` row of the event, and its tag is the stored tag row when one exists |
| EntityStore.LinksOfExact | model.py:33-36 | an association is in an event's loaded `event_tags` collection exactly when it is the stored `event_tag` row of that event and its tag |
| EntityStore.Load | services/events.py:110-113 | eager loading returns the stored event, metrics that are stored rows owned by that event in increasing id order, and associations that are stored `event_tag` rows of that event |
| EntityStore.LoadedLinksResolve | model.py:97-104 | in a valid store every loaded association resolves to the stored tag it names |
| EntityStore.DeleteEvent | model.py:30-36 | deleting an event removes it, every metric row and association it owned, leaving none that point at it; every other row, including every tag, is unchanged; the store stays valid |
| EntityStore.DeleteEventRemovesAllMetrics | model.py:30-32 | after deleting an event, its loaded metrics collection is empty |
| EntityStore.CascadeIsNeeded | model.py:50-52 | removing an event that owns a metric without the cascade would break the foreign key from `event_metric.event_id` |
| EntityStore.DeleteTag | model.py:80-83 | deleting a tag removes it and its associations only; events and metrics are untouched; the store stays valid |
| EntityStore.RemoveMetric | model.py:30-32 | delete-orphan: removing a metric from a collection deletes exactly that row, leaves every other table and counter unchanged and keeps the store valid |
| EntityStore.RemoveMetricFromCollection | model.py:30-32 | after the removal, a metric is in an event's collection exactly when it was there before and is not the removed one |
| EntityStore.InsertTag | model.py:70 | inserting a tag fails with a unique violation on `tag.name` exactly when the name is taken; otherwise exactly that tag is added |
| EntityStore.AttachTag | model.py:97-104 | an association is added exactly when both ends exist and the pair is new; it adds exactly one row |
| EntityStore.AtMostOneAssociationPerPair | model.py:97-104 | two stored associations with the same event and tag are the same row |
| Sorting.InsertBy | services/events.py:114 | inserting into a sorted sequence keeps it sorted and adds exactly one element |
| Sorting.SortBy | services/events.py:114 | the result is sorted by the key and is a permutation of the input |
| Sorting.SortByStable | services/events.py:114 | the sort is stable: for every key value, the elements carrying it appear in the result in their input order |
| Sorting.PermutationKeepsDistinct | services/events.py:114 | a permutation of a sequence without repeats has no repeats |
| EntityStore.StoredValue | model.py:56 | the `value` column is a float column: every stored value is a float, an integer count is stored as the float of equal value, and a float is stored unchanged |
| Events.AppendWorkoutMetric | services/events.py:54-55 | appending adds one metric at the end with the given name, count and unit, and leaves the earlier metrics unchanged |
| Events.WorkoutMetricsSpec | services/events.py:34-47 | a workout has at most seven metrics; each counter yields exactly one metric when present and non-zero and none otherwise; each metric carries its counter's value; they appear in the order dips, planks, pushups, pullups, rows, squats, situps |
| Events.WorkoutMetrics | services/events.py:33-47 | a workout yields at most seven metrics, each with a value, each named after one of the seven counters, in the fixed counter order without repeats |
| Events.WorkoutMetricUnits | services/events.py:34-47 | every workout metric has a non-zero integer value; planks have unit `sec` and every other counter has unit `rep` |
| Events.DatedTitle | services/events.py:23 | a title is the prefix, one space, and a date text that parses back to today |
| Events.Derive | services/events.py:23-96 | each logger derives an event of its own type, with null raw text, the request's notes and a title ending in today's `DD-MM-YYYY` date; a workout yields at most seven metrics all with values, a guitar or activity request exactly one metric holding the request's minutes |
| Events.Log | services/events.py:9-100 | logging fails exactly when a guitar or activity request has no minutes, and then the store is unchanged and the error is the NOT NULL violation; otherwise the derived event and metrics are committed as one unit |
| Events.LoggedAsDerived | services/events.py:30-51 | a request with minutes always commits; the event row is the derived one and its loaded metrics are the derived metrics in order |
| Events.LogWorkoutResult | services/events.py:23-51 | a workout always logs an event of type workout with title `workout DD-MM-YYYY`, null raw text, the given notes and the commit instant, and its stored metrics are the workout metrics in order, each value stored as a float |
| Events.LogGuitarResult | services/events.py:58-77 | a guitar session logs an event of type guitar with title `guitar DD-MM-YYYY` and exactly one metric `guitar_<focus>` with the minutes, stored as a float, and unit `min` |
| Events.LogActivityResult | services/events.py:80-100 | an activity logs an event with title `<name> DD-MM-YYYY` and exactly one metric named after the activity, with the minutes stored as a float and no unit |
| Events.InWindow | services/events.py:109 | `between` as intended: a timestamp lies in the window when it is present and lies between both bounds inclusive (see Findings for the comparison as the database runs it) |
| Events.EventsInWindowBelow | services/events.py:107-109 | the candidates are stored events whose timestamp lies in the intended inclusive window, in increasing id order |
| Events.AsWrittenWindow | services/events.py:105-109 | for a timestamp stored at a whole second, the database's text comparison accepts exactly the instants from one second after midnight to the end of the day |
| Events.MidnightEventDroppedAsWritten | services/events.py:105-109 | an event stamped at midnight falls on that day, yet the database's text comparison leaves it out of the day's window |
| Events.SelectEventsToday | services/events.py:103-118 | with the intended inclusive window, the query returns exactly the stored events of today, each once and loaded with its metrics and tags, sorted by timestamp |
| Events.OtherDaysExcluded | services/events.py:103-118 | an event whose timestamp falls on another day is never returned |
| Serialization.MetricToJson | serialization_helpers.py:12-20 | a metric becomes an object with exactly the keys id, event_id, name, value, unit and created_at |
| Serialization.TagToJson | serialization_helpers.py:23-29 | a tag becomes an object with exactly the keys id, name, color and created_at |
| Serialization.ResolvedTags | serialization_helpers.py:42 | there are never more tag entries than associations |
| Serialization.ResolvedTagsExact | serialization_helpers.py:42 | a tag is emitted exactly when some association resolves to it |
| Serialization.ResolvedTagsAppend | serialization_helpers.py:42 | filtering the associations commutes with concatenation, so relative order is kept |
| Serialization.AllLinksResolve | serialization_helpers.py:42 | when every association resolves, there is one tag entry per association and entry `i` is the tag of association `i` |
| Serialization.EventToJson | serialization_helpers.py:32-43 | an event becomes an object with exactly the keys id, timestamp, type, title, raw_text, notes, created_at, metrics and tags |
| Serialization.FormatEvents | serialization_helpers.py:49-68 | the document has schema version 1, the label unchanged (null when absent), the given generation instant, an events list as long as the input and an `event_count` equal to that length |
| Serialization.MetricRoundTrip | serialization_helpers.py:12-20 | every metric column, including a missing created_at as null, is recovered by reading the entry back |
| Serialization.TagRoundTrip | serialization_helpers.py:23-29 | every tag column is recovered by reading the entry back |
| Serialization.MetricsRoundTrip | serialization_helpers.py:41 | the metrics list reads back as the same metrics in the same order |
| Serialization.EventRoundTrip | serialization_helpers.py:32-43 | reading an event entry back recovers every event column, with `type` as the enumeration's string value, its metrics and its resolved tags |
| Serialization.EventsRoundTrip | serialization_helpers.py:65 | the events list reads back entry by entry, in input order |
| Serialization.DocumentRoundTrip | serialization_helpers.py:49-68 | reading the document back gives schema version 1, the generation instant, the label, the input's length as count and one entry per input event in order |
| Serialization.FormatIgnoresClock | serialization_helpers.py:49-68 | two documents of the same events and label differ at most under `generated_at` |
| Serialization.FormatEventsToday | serialization_helpers.py:71-73 | today's export is labelled `today` |
| Serialization.TodayEntriesSound | serialization_helpers.py:71-73 | every entry of today's export is a stored event of today, and none repeats |
| Serialization.TodayEntriesComplete | serialization_helpers.py:71-73 | with the intended inclusive window, every stored event of today has an entry in today's export |
| Serialization.TodayExportIsToday | serialization_helpers.py:71-73 | today's export reads back as a version-1 document labelled `today` whose count equals its number of entries and whose entries are those of today's selection |
| Commands.AfterSession | main.py:214-226 | a recorded session always supplies the minutes; without a session the minutes and notes are the options; after a session the notes are the typed note if one was given, and `--notes` otherwise |
| Commands.GuitarCommand | main.py:228-241 | a guitar request is rejected with the usage error exactly when neither a session nor `--minutes` gave a duration; when it has a duration it is skipped exactly when it has no focus; otherwise it is forwarded with that focus and with the minutes and notes left after the session step |
| Commands.ActivityCommand | main.py:332-345 | an activity request is rejected exactly when it has no duration, before the name is looked at; when it has a duration it is skipped exactly when the name is empty; otherwise it is forwarded under that name with the minutes and notes left after the session step |
| Commands.StudyCommand | main.py:280-283 | the study command is never forwarded to a logger |
| Commands.StudyLeavesStore | main.py:280-283 | running the study command leaves the store exactly as it was and reports nothing logged |
| Commands.GuitarWithoutMinutesRejected | main.py:229-230 | a guitar request with neither a session nor `--minutes` is rejected with the usage error and the store is unchanged |
| Commands.GuitarWithoutFocusSkipped | main.py:231-241 | a guitar request with a duration but no focus leaves the store unchanged and raises no error |
| Commands.ActivityWithoutMinutesRejected | main.py:333-334 | an activity request without a duration is rejected with the usage error, whatever its name, and the store is unchanged |
| Commands.SessionSuppliesMinutes | main.py:214-220 | after a recorded session neither guard rejects, and a forwarded request carries the measured minutes rather than `--minutes` |
| Commands.SessionNoteReplacesNotes | main.py:214-340 | for both the guitar and the activity guard, a note typed after a session replaces `--notes`, without one `--notes` is forwarded, and without a session the forwarded minutes are `--minutes` |
| Commands.GuardsForwardOnlyTimedRequests | main.py:228-240 | the guitar and activity guards never forward a request whose minutes are missing |
| Commands.WorkoutCommand | main.py:140-151 | the workout command is always forwarded as a workout request carrying the notes |
| Commands.Run | main.py:140-339 | a rejected or skipped request leaves the store unchanged; a forwarded request is logged exactly when it carries its minutes and fails exactly when it does not, a failure leaves the store unchanged, and a logged event is committed with its derived metrics |
| Commands.ForwardedRequestsCommit | main.py:228-240 | a forwarded request that has its minutes is always committed, never refused by the store |
| Commands.GuitarWithFocusLogged | main.py:231-236 | a guitar request with a duration and a focus logs a fresh guitar event |
| Commands.ActivityWithoutNameSkipped | main.py:335-340 | an activity with an empty name leaves the store unchanged and logs nothing |
| Commands.WorkoutForwardsCounters | main.py:140-151 | the forwarded workout request carries exactly the seven counters given on the command line |
| Commands.WorkoutIgnoresDistanceAndDuration | main.py:140-151 | two workout commands that differ only in distance and duration forward the same request |

## Left out

- `db.py`: the engine is created lazily and is pure I/O; the store is a value here.
- Session mechanics: `flush`, `refresh` and `server_default=func.now()` become the per-table id counters and the `now` parameter.
- `json.dumps` text: indentation, `ensure_ascii` and key order are not modelled. The document stays a value, and instants stay integers instead of `isoformat()` strings.
- The wall clock behind `generated_at` is the parameter `generatedAt`.
- Typer plumbing: echo output, `input()`, the Y/N prompt loop and the `time.time()` timer with its rounding. A recorded session is given as its result, `SessionStep.Recorded(minutes, note)`.
- Floating-point metric values and minutes are exact `Number` values: an integer count becomes the real number of equal value when stored, and rounding of the platform's doubles is not modelled.
- The `Goal` table and the stub commands (`today` rendering, `analyze`, `blog`, `goals`) hold no logic to model.
- The study command's duration and topic are only echoed, so the model only states that the store is untouched.
- Week and month range resolution is not modelled. `format_events_week_as_json` (serialization_helpers.py:76-78) calls `select_events_week`, which `services/events.py` does not define, and it labels its output `today`.
- String column lengths (`String(25)` and the like) are not enforced by SQLite and are not modelled.
- Time zones: the day bounds are naive while the column is zone-aware. Every instant is taken in one reference zone.
- Foreign keys: SQLite enforces them only with a pragma that `db.py` does not set. The model enforces the declared foreign keys as invariants.
- The order of metrics and associations inside a loaded event is not specified by the query. The model loads metrics in ascending metric id, which is insertion order, and associations in ascending tag id.
- Events.SelectEventsToday: events with equal timestamps have no specified order in the source. The candidates are scanned in ascending id and the sort is stable (`Sorting.SortByStable`), so the model breaks such ties by ascending id and describes one permitted order rather than all of them.
- Events.SelectEventsToday: the model uses the intended inclusive window, not the text comparison the database runs; the events it returns beyond the database's are those stamped in the first second of the day (see Findings).
- Events.EventsInWindowBelow: uses the same intended window, so it also keeps events stamped in the first second of the day, which the database drops (see Findings).
- Serialization.TodayEntriesComplete: rests on the intended window, so the export it describes also includes events stamped in the first second of the day (see Findings).
- Calendar.FormatDate: dates are limited to years 1 to 9999 and always render four year digits; the platform's `%Y` may print fewer digits for years before 1000.
- The current-date helper `get_date` imported by `services/events.py:5` is not part of this model; the date is the parameter `today`.
- EntityStore.Commit: the model only produces NOT NULL failures on `event_metric.value` for a missing value. Key and foreign-key failures cannot arise from the loggers, because ids come from the allocator and the event is created in the same unit of work.
- EntityStore.Commit: `Number` has no NaN and its integers have no width limit, so two more failures of the real commit are not modelled. A workout counter outside SQLite's signed 64-bit INTEGER range makes the driver raise `OverflowError` when binding it (`Optional[int]` at main.py:79-80 accepts any integer). A `--minutes nan` value (`Optional[float]` at main.py:186-187 and main.py:306-307) is bound as NULL, so the NOT NULL check on `event_metric.value` (model.py:56) fires.
- Events.LogWorkoutResult: "a workout always logs" holds only for counters within the signed 64-bit range; see the EntityStore.Commit line above.
- Commands.ForwardedRequestsCommit: "never refused by the store" holds only for finite minutes and counters within the signed 64-bit range; see the EntityStore.Commit line above.

## Findings

The database compares `event.timestamp` with the bounds as text. The model
of that comparison (`Events.SqlText`, `Events.TextLe`) keeps only what orders
such texts: the whole seconds of the fixed-width `YYYY-MM-DD HH:MM:SS` prefix
(four-digit years) and the optional `.ffffff` fraction.

| source | as written | input that shows it | evidently intended | confidence | as-written member | corrected member |
|---|---|---|---|---|---|---|
| services/events.py:105-109 | `between(Event.timestamp, start, end)` compares texts. The stored server default `func.now()` (model.py:15-17) is SQLite's `CURRENT_TIMESTAMP`, written with whole seconds and no fraction, while `start` is bound with six fraction digits, so a stamp of exactly `00:00:00` sorts below `start` | an event committed at 00:00:00 of today | every event whose timestamp falls on today, midnight included, is selected | not executed; medium: rests on SQLite's text form of `CURRENT_TIMESTAMP` and the six-digit fraction of bound datetimes | Events.MidnightEventDroppedAsWritten | Events.SelectEventsToday |
