# A verified model of the "my" Telegram bot

"my" is a personal Telegram bot with a small HTTP API. Its core does four things:

- **Tracks anime titles from MyAnimeList.** For each title it stores snapshots: rank, mean score, member counts, airing status and the time of the fetch. A chat conversation adds, views, updates, renames and deletes titles. Every update reports what changed since the previous snapshot.
- **Runs a periodic job.** It fetches every tracked title, stores a new snapshot and sends the report to the owner. The job runs after a fixed delay or daily at a set time.
- **Accepts notifications.** Webhook endpoints take messages from allowed senders and forward them to the owner's chat: inline when short, as a document when long.
- **Reads its configuration from a secrets store.** It checks each section before applying it, and the owner can reload it with `/secrets_reload`.

A middleware locks the chat to the owner.

The model follows the program's structure, one module per source file:

- **Data:**
  - `Models`: the `anime_info` table row.
  - `Crud` (a class `AnimeStore`): the table and its queries.
  - `MyAnimeList`: the catalog fetch.
- **Reports:**
  - `Report`: the field-by-field diff shared by the job and the update handler.
  - `AnimeJob`: the job's interval and its cycle.
  - `JobBase` (a class `Job`): the generic job loop.
- **Configuration:**
  - `Config` (a class `ConfigManager`): credentials, section checks and assignments.
  - `Admin`: the reload command.
- **Chat:**
  - `Middleware`: the owner filter.
  - `BaseRoutes`: `/commands` and Abort.
  - `AnimeRoutes`: the anime menu and its forms.
  - `Keyboards` (a class `KeyboardBuilder`) and `Callbacks`: inline keyboards and callback data.
  - `Fsm` (a class `FsmContext`): the form state.
- **HTTP:**
  - `Webhooks`: the endpoints.
- **Supporting modules:**
  - `Text`: Python string built-ins.
  - `Civil`: calendar dates and clock times.
  - `Json`: Python values and the equality rules the program relies on.
  - `Formatting`: rendered message text.
  - `Wrappers`: `Option`/`Result`.

Code that changes state step by step is written as methods with loops, specified by functions. Those functions carry the properties as lemmas. I/O and the clock are parameters:

- what a fetch returns;
- whether a Telegram call went through;
- the current time;
- `json.dumps` and Python's `str` of a container.

## Model

| member | source | states |
|---|---|---|
| Text.LowerAll | app/telegram/routes/base.py:88 | the characters `capitalize()` lower-cases: each maps to its lower case, length kept |
| Text.Capitalize | app/jobs/anime.py:85 | the first character is upper-cased and every later one lower-cased, length kept |
| Text.ReplaceChar | app/jobs/anime.py:85 | each occurrence of the character is replaced and every other character kept |
| Text.LStrip | app/telegram/routes/base.py:88 | the result is a suffix of the input; what was dropped is whitespace; the result does not start with whitespace |
| Text.RStrip | app/telegram/routes/anime.py:129 | the result is a prefix of the input; what was dropped is whitespace; the result does not end with whitespace |
| Text.Strip | app/telegram/middlewares.py:21 | the result neither starts nor ends with whitespace |
| Text.Decimal | app/telegram/routes/anime.py:167 | `str(n)` is a non-empty run of digits |
| Text.ParseDecimalOfDecimal | app/telegram/routes/anime.py:89 | reading the digits of `str(n)` gives `n` back |
| Text.Pad3 | app/jobs/anime.py:82 | a group after a separator has exactly three digits |
| Text.Pad2 | app/telegram/routes/anime.py:163 | a `strftime` field has exactly two digits |
| Text.RemoveSpaces | app/jobs/anime.py:82 | taking out the separators never lengthens a text |
| Text.RemoveSpacesConcat | app/jobs/anime.py:82 | taking out separators distributes over concatenation |
| Text.RemoveSpacesOfDigits | app/jobs/anime.py:82 | a run of digits has no separators to take out |
| Text.ThousandsDigits | app/jobs/anime.py:82 | the digits of `n % 1000` are the last three digits of `n` |
| Text.DecimalSplit | app/jobs/anime.py:82 | the digits of `n >= 1000` are those of `n / 1000` followed by its last three digits, zero-padded |
| Text.GroupedDigits | app/jobs/anime.py:82 | with the space separators removed, `"{:,}"` grouping gives the plain decimal digits |
| Text.GroupedValue | app/telegram/routes/anime.py:167 | a grouped number, separators removed, is all digits and reads back as the number |
| Text.GroupedStartsWithDigit | app/jobs/anime.py:79 | a grouped number starts with a digit, never a separator |
| Text.SignedZero | app/jobs/anime.py:79-81 | no change shows as `+0` |
| Text.SignedSign | app/jobs/anime.py:79-81 | the delta text starts with `+` exactly when the delta is not negative, and with `-` exactly when it is |
| Text.RemoveUnderscores | app/telegram/routes/anime.py:89 | taking out underscores never lengthens a text |
| Text.RemoveUnderscoresDigits | app/telegram/routes/anime.py:89 | digits and underscores leave only digits once the underscores are out |
| Text.RemoveUnderscoresOfDigits | app/telegram/routes/anime.py:89 | a run of digits is unchanged |
| Text.ParseUnsignedOfDecimal | app/telegram/routes/anime.py:89 | `int()` reads `str(n)` back as `n` |
| Text.StripOfNonSpaceEnds | app/telegram/middlewares.py:21 | `strip()` leaves a text that starts and ends with non-space characters as it is |
| Text.ParseIntOfIntStr | app/telegram/routes/anime.py:89 | `int(str(i)) == i` for every integer, negative ones included |
| Text.LStripKeeps | app/telegram/routes/base.py:88 | `lstrip()` leaves a text that starts with a non-space character as it is |
| Text.LStripOneSpace | app/telegram/routes/base.py:88 | `lstrip()` drops exactly the one leading space of `" operation was aborted"` |
| Text.NoCapitalsConcat | app/telegram/routes/base.py:88 | two texts without capitals join into one without capitals |
| Text.CapitalizeFirstOnly | app/telegram/routes/base.py:88 | `capitalize()` of a text with no later capitals changes only its first character |
| Text.RStripSpacesAfter | app/telegram/routes/anime.py:129 | `rstrip()` drops exactly the whitespace typed after the name |
| Civil.MonthAndDay | app/telegram/routes/anime.py:163 | the day of the year maps to a valid month and day of that year |
| Civil.DateInYear | app/telegram/routes/anime.py:163 | the date found within a year has the day number it was looked up by |
| Civil.DateOfDay | app/telegram/routes/anime.py:163 | the date of a day number is a valid calendar date |
| Civil.DateOfDayNumber | app/telegram/routes/anime.py:163 | the date of a day number has that day number, so dates and day numbers correspond one to one |
| Civil.ClockOf | app/telegram/routes/anime.py:163 | a timestamp's fields are a valid date, hour < 24, minute < 60, second < 60 and micro < 10^6 |
| Civil.ClockOfRoundTrip | app/telegram/routes/anime.py:163 | a timestamp's date and clock fields give the timestamp back |
| Civil.TwoDigits | app/jobs/anime.py:28 | a two-digit field reads as a value below 100 |
| Civil.ParseIsoTime | app/jobs/anime.py:28 | an accepted `HH:MM[:SS]` time has hour < 24 and minute < 60 |
| Civil.ParseIsoTimeOfClock | app/common/config.py:177 | every valid `HH:MM`, with or without the appended `:00`, parses back to its hour and minute |
| Json.Get | app/api/webhooks.py:48 | `d.get(key)` of an absent key is `None` |
| Json.Contains | app/api/webhooks.py:41 | `x in list` holds exactly when some element is Python-equal to `x` |
| Formatting.RenderedTextConcat | app/api/webhooks.py:51-53 | the rendered text of spans concatenates over concatenation |
| Formatting.RenderedTextOfFew | app/api/webhooks.py:51-53 | the rendered text of one, two or three spans is their texts in order |
| Models.Column | app/db/models.py:14-22 | `row_dict[key]` succeeds exactly for the table's column names |
| Models.MakeRow | app/db/models.py:14-22 | an INSERT creates a row exactly when every non-null column gets a value of its type and `rank` gets an int or NULL |
| Models.MakeRowColumns | app/db/models.py:14-22 | read back as a dict, a stored row holds exactly the values it was inserted with |
| Models.OnlyRankIsNullable | app/db/models.py:17-22 | `rank` is the only metric that may be NULL; NULL anywhere else makes the insert fail |
| Crud.Pairs | app/crud/anime.py:11-16 | each row gives its `(anime_id, anime_name)` pair, in row order |
| Crud.Distinct | app/crud/anime.py:13 | `DISTINCT` keeps the same set of pairs and holds none twice |
| Crud.Latest | app/crud/anime.py:58-65 | `None` exactly when the title has no row; otherwise a row of that title whose `updated` is the greatest |
| Crud.DeleteFrom | app/crud/anime.py:44-46 | exactly the rows of other titles survive |
| Crud.RenameIn | app/crud/anime.py:49-55 | each row of the title takes the new name and every other row stays, in place |
| Crud.AnimeStore.constructor | app/db/models.py:11-22 | the table starts empty with the key counter at 1 |
| Crud.AnimeStore.GetAllAnime | app/crud/anime.py:9-16 | the listing holds exactly the pairs of the stored rows, each once |
| Crud.AnimeStore.AddAnimeInfo | app/crud/anime.py:19-41 | appends the one row the values make under the next key, or appends nothing and keeps the counter when the database refuses them; keys stay increasing |
| Crud.AnimeStore.DeleteAnime | app/crud/anime.py:44-46 | every row of the title is removed and the rest kept in order |
| Crud.AnimeStore.RenameAnime | app/crud/anime.py:49-55 | every row of the title is renamed and no other row changes |
| Crud.AnimeStore.GetLastInfo | app/crud/anime.py:58-65 | the latest snapshot of the title, `None` exactly when it has no row |
| Crud.DeleteKeepsOrder | app/crud/anime.py:44-46 | a delete keeps primary keys increasing |
| Crud.InsertThenLatest | app/crud/anime.py:58-65 | a snapshot inserted with its title's newest `updated` is then its latest |
| Crud.InsertOtherLatest | app/crud/anime.py:30-41 | inserting a snapshot of one title leaves every other title's latest as it was |
| Crud.DeleteRemovesTitle | app/crud/anime.py:44-46 | after a delete the title has no snapshot and is not listed |
| Crud.DeleteKeepsOthers | app/crud/anime.py:44-46 | a delete leaves every other title's latest snapshot as it was |
| Crud.RenameListing | app/crud/anime.py:49-55 | after a rename the title is listed, only under the new name, and names stay consistent |
| Crud.ListingDistinctById | app/crud/anime.py:9-16 | while each title has one name, the listing holds each title once |
| Crud.InsertKeepsNames | app/crud/anime.py:30-41 | an insert under the title's stored name keeps one name per title |
| Crud.DeleteKeepsNames | app/crud/anime.py:44-46 | a delete keeps one name per title |
| MyAnimeList.GetAnimeInfo | app/externals/myanimelist.py:11-46 | a transport error gives `error_code ""`; a non-200 status gives that status; a 200 response gives the six renamed fields stamped with the fetch time exactly when the body holds them all, and `{}` otherwise |
| MyAnimeList.Items | app/externals/myanimelist.py:34-46 | the result dict is empty exactly for the `{}` answer |
| MyAnimeList.Lookup | app/telegram/routes/anime.py:133 | `result[key]` fails exactly when the key is not in the dict |
| MyAnimeList.ResultShapes | app/externals/myanimelist.py:20-46 | the dict is an error code alone, empty, or the six metric keys in order; an error never comes with metrics |
| MyAnimeList.ShapeQueries | app/telegram/routes/anime.py:133 | `"mean" in info` holds exactly for a record; `get("error_code")` is set exactly for an error, with its code |
| Report.Subtract | app/jobs/anime.py:66-68 | numbers subtract to their difference and times to their span; anything else gives no difference |
| Report.SpanSeconds | app/jobs/anime.py:70 | `timedelta.seconds` lies within one day |
| Report.FieldInfo | app/jobs/anime.py:64-82 | raises exactly when the previous snapshot lacks the key, naming it; an italic delta appears only for numbers |
| Report.LineSpans | app/jobs/anime.py:83-91 | a field line is its bold label, its value, the italic delta when there is one, then a newline |
| Report.FieldLine | app/jobs/anime.py:64-91 | a field's line raises exactly when the previous snapshot lacks the key |
| Report.BuildReport | app/jobs/anime.py:63-91 | the header, then one line per field in record order; the first raising lookup ends it with that key |
| Report.LinesExtend | app/jobs/anime.py:64-91 | one loop step: a raising field is the error of the whole record, a rendered one extends the lines |
| Report.LinesSnoc | app/jobs/anime.py:64-91 | one more field extends the lines of the prefix |
| Report.PrefixErrorPropagates | app/jobs/anime.py:64-91 | an error in a prefix of the record is the error of the whole record |
| Report.NumericLine | app/jobs/anime.py:78-82 | a number shows its grouped current value and the signed grouped difference |
| Report.NumericDelta | app/jobs/anime.py:79-81 | a number's delta is never empty and starts with `+` exactly when the value did not decrease |
| Report.UnchangedNumberDelta | app/telegram/routes/anime.py:221-225 | an unchanged number shows `(+0)` |
| Report.DurationLine | app/jobs/anime.py:69-71 | a time span shows its days, hours and minutes and gets no delta |
| Report.DurationParts | app/jobs/anime.py:70 | days are floored, the remaining seconds lie within a day, and the hours and minutes account for them up to the dropped seconds |
| Report.UnchangedLine | app/jobs/anime.py:72-77 | an unchanged field that cannot be subtracted shows its value with no delta |
| Report.VariantsDiffer | app/jobs/anime.py:75-76 | on a changed non-numeric field the job prints the literal text `last_info[key] -> new` where the handler prints `old -> new` |
| Report.Styles | app/jobs/anime.py:83-91 | the span styles, one per span |
| Report.BoldTextsConcat | app/jobs/anime.py:83-91 | the bold texts of concatenated spans are concatenated |
| Report.LabelTexts | app/jobs/anime.py:85 | one label per record key, in order, each `Label(key) + ":   "` |
| Report.LineBold | app/jobs/anime.py:83-88 | a field's line carries one bold text: its label |
| Report.LinesFollowKeyOrder | app/jobs/anime.py:64-91 | a rendered report labels the fields in record order, one bold label each |
| Report.ReportShape | app/jobs/anime.py:63-91 | a report starts with the bold name header, followed by the labels in record order |
| Report.FieldInfoAgree | app/telegram/routes/anime.py:207-234 | the job's and the handler's copies compute the same delta, and the same text except on a transition |
| Report.LineStyles | app/jobs/anime.py:83-91 | a line's styles depend only on whether it has a delta |
| Report.FieldLinesAgree | app/telegram/routes/anime.py:207-234 | for one field both copies fail alike, give spans of the same styles, and agree except on a transition |
| Report.StylesConcat | app/jobs/anime.py:83-91 | the styles of concatenated spans are concatenated |
| Report.VariantsAgree | app/telegram/routes/anime.py:207-234 | both copies fail on the same records with the same key, and where they succeed their spans have the same styles |
| Report.VariantsEqualWithoutTransitions | app/telegram/routes/anime.py:207-234 | without a transition both copies produce the same message |
| Report.NoPreviousSnapshot | app/jobs/anime.py:61-68 | without a previous snapshot the first field's lookup raises |
| Report.ErrorCodeRaises | app/jobs/anime.py:64-68 | an `{"error_code": …}` answer always raises at its key, because a row has no such column |
| Report.ColumnKeysRender | app/jobs/anime.py:64-82 | against a previous snapshot, a record whose keys are all columns renders without raising |
| JobBase.LoopSteps | app/jobs/_base.py:21-33 | the loop takes at most one step per iteration of the trace |
| JobBase.Job.constructor | app/jobs/_base.py:9-11 | a new job has its name, no task and an empty log |
| JobBase.Job.Start | app/jobs/_base.py:35-37 | a task is running and "job start" is logged |
| JobBase.Job.Stop | app/jobs/_base.py:39-44 | a running task is asked to cancel; with no task the AttributeError is logged as a warning, not raised |
| JobBase.Job.RunIterations | app/jobs/_base.py:21-33 | runs the trace up to the first step that ends the loop, logging each swallowed exception |
| JobBase.Job.Loop | app/jobs/_base.py:21-33 | the steps are those of the trace; an interval of -1 has the effect of `stop()` |
| JobBase.LoopStepsFollowTrace | app/jobs/_base.py:22-33 | step `p` is what iteration `p` makes of it, and only the last step may end the loop |
| JobBase.StopSignal | app/jobs/_base.py:24-27 | an interval of -1 stops the job before the task runs |
| JobBase.ExceptionsContinue | app/jobs/_base.py:28-33 | iterations that are neither stopped nor cancelled each sleep and run the task, or log the exception and go on |
| JobBase.CancellationEnds | app/jobs/_base.py:30-31 | a cancellation ends the loop at its iteration |
| JobBase.NonNumberIntervalLogged | app/jobs/_base.py:28-33 | a non-numeric interval is a swallowed TypeError, and the task does not run |
| AnimeJob.UnitCoefficient | app/jobs/anime.py:19-25 | minutes, hours and days count 60, 3600 and 86400 seconds; any other unit counts 1 |
| AnimeJob.WaitMicros | app/jobs/anime.py:30-39 | the wait until the planned time is under one day |
| AnimeJob.DelayInterval | app/jobs/anime.py:18-26 | a delay is the value times the unit's seconds |
| AnimeJob.UnknownTypeGivesNone | app/jobs/anime.py:16-42 | a type other than "delay" and "update_at" falls through to `None`, not -1 |
| AnimeJob.UpdateAtBounds | app/jobs/anime.py:27-39 | a daily time gives -1 or a wait of 0..86399 seconds |
| AnimeJob.WaitIsNextOccurrence | app/jobs/anime.py:30-39 | the wait reaches the next time the clock reads the planned time: today if it has not passed, otherwise tomorrow |
| AnimeJob.NineOClock | app/jobs/anime.py:28 | "09:00" with the appended seconds parses as nine o'clock |
| AnimeJob.NineOClockWait | app/jobs/anime.py:27-39 | "09:00" waits until the clock next reads nine o'clock |
| AnimeJob.TimeOfDay | app/jobs/anime.py:30-33 | the time of day of a moment within day `d` is its offset into that day |
| AnimeJob.UpdateAtOnTime | app/jobs/anime.py:27-39 | at 09:00 an update due at "09:00" waits 0 seconds |
| AnimeJob.UpdateAtHourBefore | app/jobs/anime.py:27-39 | at 08:00 it waits 3600 seconds |
| AnimeJob.UpdateAtHourAfter | app/jobs/anime.py:27-39 | at 10:00 it waits 82800 seconds, until 09:00 the next day |
| AnimeJob.WrongParamsGiveMinusOne | app/jobs/anime.py:40-42 | an unparseable time or a delay that cannot be multiplied gives -1 |
| AnimeJob.ProcessItem | app/jobs/anime.py:49-108 | one title's turn: what is sent and stored, and how it ends, is `ItemStep` |
| AnimeJob.LoopTask | app/jobs/anime.py:44-108 | the titles are listed once and processed in order, stopping at the first that does not complete; the cycle is `CycleFrom` |
| AnimeJob.Inserts | app/jobs/anime.py:92-101 | no more rows are inserted than there are events |
| AnimeJob.SentCount | app/jobs/anime.py:103-108 | no more reports are sent than there are events |
| AnimeJob.InsertsConcat | app/jobs/anime.py:92-101 | the inserts of concatenated events are concatenated |
| AnimeJob.SentCountConcat | app/jobs/anime.py:103-108 | the reports of concatenated events add up |
| AnimeJob.ItemStepEvents | app/jobs/anime.py:92-101 | a completed title inserts one row, its snapshot at the cycle's start time; any other outcome inserts nothing |
| AnimeJob.ItemStepReports | app/jobs/anime.py:103-108 | a completed title sends one report; any other outcome sends none |
| AnimeJob.CycleSnapshots | app/jobs/anime.py:45-108 | a cycle inserts one row per completed title in listing order, each with the title's id and name and the start time, and sends one report per insert |
| AnimeJob.CycleRows | app/jobs/anime.py:92-101 | the table ends as the old rows followed by the cycle's inserts |
| AnimeJob.ItemStepRows | app/jobs/anime.py:92-101 | one title appends exactly the rows it inserts |
| AnimeJob.ThenRows | app/jobs/anime.py:92-101 | one title's inserts followed by the rest of the cycle's are the cycle's inserts |
| AnimeJob.CycleNextId | app/jobs/anime.py:92-101 | the key counter advances by one per insert |
| AnimeJob.CompletedCycleHadRecords | app/jobs/anime.py:54-63 | a completed cycle got a full record for every title; an error code or an empty answer ends it early |
| AnimeJob.NothingAfterFailedFetch | app/jobs/anime.py:54-59 | titles from the first failed fetch on get no insert and no report |
| AnimeJob.CycleInsertsBeforeReports | app/jobs/anime.py:92-108 | every report is sent right after its snapshot was inserted |
| Config.Checked | app/common/config.py:121-130 | startup checks every section; a reload checks all but "db" |
| Config.ConfigManager.constructor | app/common/config.py:20-24 | a manager holds its environment, credentials and secrets, with no attribute assigned yet |
| Config.ConfigManager.Perform | app/common/config.py:195-232 | assignments run in order until one raises, leaving the earlier ones in place |
| Config.ConfigManager.GetCreds | app/common/config.py:65-72 | the three credentials are assigned, a falsy one as ""; a missing one is the error |
| Config.ConfigManager.UpdateCreds | app/common/config.py:74-82 | the update merges into the credentials, then raises reading the unassigned `data`; no attribute changes |
| Config.ConfigManager.CheckSecrets | app/common/config.py:121-193 | the names of the sections whose check raised, in checking order |
| Config.ConfigManager.ApplySecrets | app/common/config.py:195-232 | the attributes after applying the checked sections' blocks, and whether the run completed |
| Config.MissingMembers | app/common/config.py:121-193 | a name is reported exactly when its section is checked and invalid |
| Config.MissingConcat | app/common/config.py:121-193 | checking two runs of sections reports both reports in order |
| Config.DistinctNames | app/common/config.py:126-184 | different sections are reported under different names |
| Config.MissingNoRepeats | app/common/config.py:121-193 | distinct sections give distinct reported names |
| Config.CheckedNoRepeats | app/common/config.py:121-193 | each section is reported at most once |
| Config.DbOnlyAtStartup | app/common/config.py:124-130 | "db" is reported exactly at startup, when its section is invalid |
| Config.StartupChecksDbFirst | app/common/config.py:124-130 | the startup report is the "db" entry followed by what a reload reports |
| Config.EmptyReportMeansValid | app/common/config.py:121-193 | the report is empty exactly when every checked section is valid |
| Config.PerformedRuns | app/common/config.py:195-232 | a run completes exactly when no statement raises, and then assigns every attribute it names |
| Config.PerformedGrows | app/common/config.py:195-232 | an assigned attribute stays assigned |
| Config.PerformedKeeps | app/common/config.py:195-232 | an attribute no statement assigns keeps its value |
| Config.PerformedSole | app/common/config.py:195-232 | in a completed run, the only statement assigning an attribute decides its value |
| Config.PlansMembers | app/common/config.py:195-232 | the statements of the blocks are those of the sections' blocks |
| Config.SectionPlanAttrs | app/common/config.py:195-232 | a block assigns its own section's attributes, reading its own section's data |
| Config.ValidSectionReadable | app/common/config.py:121-232 | a section that passes its check is applied without raising |
| Config.ValidSectionsReadable | app/common/config.py:121-232 | when every checked section passes, `apply_secrets` reads every value without raising |
| Config.CheckedThenApplied | app/common/config.py:50-54 | when the check reports nothing, `apply_secrets` runs to its end and assigns every attribute it names |
| Config.ReloadKeepsConnection | app/common/config.py:196-199 | a reload leaves the database connection string as it was |
| Config.SectionPlanOnce | app/common/config.py:195-232 | within one block no attribute is assigned twice |
| Config.ApplyAssignsOnce | app/common/config.py:195-232 | no attribute is assigned by two statements of `apply_secrets` |
| Config.ApplyValue | app/common/config.py:195-232 | after a completed run each attribute holds the value its one statement read |
| Config.SectionApplied | app/common/config.py:195-232 | each checked section's block is part of `apply_secrets` |
| Config.AbsentJobFieldsAreNone | app/common/config.py:223-227 | after a check that passed, a delay value the job section lacks is `None` |
| Config.CredsOutcome | app/common/config.py:65-72 | credentials are assigned as given, a falsy one as ""; a missing one is the error |
| Admin.LoadError | app/common/config.py:103-119 | the error text is empty exactly when the secrets loaded, and otherwise starts with "Error" |
| Admin.ListRepr | app/telegram/routes/admin.py:28 | `str(list)` is bracketed |
| Admin.CheckAndApply | app/telegram/routes/admin.py:24-34 | from the check on, the answers and the attributes are those `CheckedAndApplied` gives; credentials are untouched |
| Admin.SecretsReload | app/telegram/routes/admin.py:14-34 | the answers and the manager's new state are those `Reloaded` gives; credentials are untouched |
| Admin.LoadErrorStops | app/telegram/routes/admin.py:17-22 | an answered load error ends the command with nothing checked or applied |
| Admin.MissingStops | app/telegram/routes/admin.py:24-29 | answered missing sections end the command with no attribute assigned |
| Admin.CleanReloadApplies | app/telegram/routes/admin.py:24-34 | a clean load applies every section and answers just "Reloaded" |
| Admin.ReloadedMeansApplied | app/telegram/routes/admin.py:17-34 | "Reloaded" is answered exactly when `apply_secrets` was reached and completed; attributes change only when it was reached |
| Admin.ReloadKeepsDb | app/telegram/routes/admin.py:24-31 | a reload never assigns the connection string |
| Admin.QuotedItemsShape | app/telegram/routes/admin.py:28 | the list text is empty exactly for no names, and otherwise starts with a quote |
| Middleware.CommandOf | app/telegram/middlewares.py:19-21 | the stripped text, else the stripped caption, else "" |
| Middleware.Authorize | app/telegram/middlewares.py:19-30 | the handler runs exactly for the owner and its result is returned; a stranger is answered with the refusal exactly when the command starts with "/start" |
| Middleware.StringOwnerLocksEveryone | app/telegram/middlewares.py:22-24 | an owner id configured as a string matches no user |
| Middleware.LStripSpacesBefore | app/telegram/middlewares.py:21 | leading whitespace before a non-space character is dropped |
| Middleware.RStripKeeps | app/telegram/middlewares.py:21 | stripping keeps everything up to the last non-space character |
| Middleware.StartAfterSpaces | app/telegram/middlewares.py:21-24 | whitespace around "/start", and anything after it, do not hide the command |
| Middleware.StrangerStartIsRefused | app/telegram/middlewares.py:24-28 | a stranger sending " /start …" is refused and the handler is not called |
| Callbacks.ChoosedCallbackText | app/telegram/utils/callbacks.py:4-8 | the text of the first matching button, keyboard by keyboard, or `None` |
| Callbacks.FirstInFinds | app/telegram/utils/callbacks.py:6-8 | within one keyboard: `None` exactly when no button matches, else the first matching button's text |
| Callbacks.NoMatchIsNone | app/telegram/utils/callbacks.py:4-8 | the result is `None` exactly when no button of any keyboard matches |
| Callbacks.FoundIsFirst | app/telegram/utils/callbacks.py:4-8 | a returned text belongs to a matching button with no match before it |
| Keyboards.KeyboardBuilder.constructor | app/telegram/utils/keyboards.py:12 | a new builder holds no buttons |
| Keyboards.KeyboardBuilder.AddButton | app/telegram/utils/keyboards.py:13 | a button is appended |
| Keyboards.KeyboardBuilder.Attach | app/telegram/routes/anime.py:41-44 | the other builder's buttons are appended |
| Keyboards.AnimeButtons | app/telegram/utils/keyboards.py:17-23 | one button per title in listing order, named after it and carrying its id |
| Keyboards.KeyboardAbort | app/telegram/utils/keyboards.py:11-14 | a single button that aborts the action |
| Keyboards.KeyboardAnime | app/telegram/utils/keyboards.py:17-23 | the title buttons |
| Keyboards.KeyboardAnimeAdd | app/telegram/utils/keyboards.py:26-30 | a single "Add" button |
| Keyboards.KeyboardAnimeActions | app/telegram/utils/keyboards.py:33-39 | Update, Rename and Delete, in that order, each carrying the title's id and its action |
| Keyboards.AnimeMenu | app/telegram/routes/anime.py:37-44 | the title buttons, then "Add", then "End" |
| Keyboards.ChosenTitleName | app/telegram/routes/anime.py:37-44 | choosing a title reads back the name of the first title with that id |
| Keyboards.MenuCallbacks | app/telegram/routes/anime.py:37-44 | in the menu, "Add" and "End" are found by their callbacks |
| Fsm.FsmContext.constructor | app/telegram/utils/forms.py:4-10 | a context starts with no form and no data |
| Fsm.FsmContext.Clear | app/telegram/routes/base.py:64 | the form is left and its data forgotten |
| Fsm.FsmContext.SetData | app/telegram/routes/anime.py:62-67 | the data is replaced and the step kept |
| Fsm.FsmContext.SetState | app/telegram/routes/anime.py:62-67 | the step changes and the data is kept |
| BaseRoutes.AppendSubs | app/telegram/routes/base.py:52-54 | a group's subcommand lines are appended in order |
| BaseRoutes.AppendEntry | app/telegram/routes/base.py:47-54 | one entry's text is appended: its command, or its group, or nothing |
| BaseRoutes.CommandsHandler | app/telegram/routes/base.py:43-57 | the header followed by the entries' texts in order |
| BaseRoutes.AbortHandler | app/telegram/routes/base.py:60-90 | the form is cleared first; "anime" lists the titles, "anime_i" only drops the keyboard, and every other action shows the aborted text |
| BaseRoutes.CommandsTextStarts | app/telegram/routes/base.py:45 | the command text starts with its header |
| BaseRoutes.EntriesConcat | app/telegram/routes/base.py:46-54 | the text of a command list is the texts of its parts in order |
| BaseRoutes.SkippedEntry | app/telegram/routes/base.py:46-54 | an entry with neither a command nor subcommands adds nothing, wherever it stands |
| BaseRoutes.CommandWinsOverGroup | app/telegram/routes/base.py:47-50 | an entry with a command shows as that command even when it also has subcommands |
| BaseRoutes.BotCommandsText | app/telegram/commands.py:9-17 | the exact text `/commands` shows for the bot's own command list |
| BaseRoutes.AddAbortText | app/telegram/routes/base.py:79-90 | an aborted Add form reads "Add anime operation was aborted" |
| BaseRoutes.OtherAbortText | app/telegram/routes/base.py:86-90 | every other aborted action reads "Operation was aborted" |
| BaseRoutes.TitleListShape | app/telegram/routes/base.py:68-78 | the "anime" abort reads "Anime: no titles", or lists each title on its own bulleted line |
| AnimeRoutes.AnimeHandler | app/telegram/routes/anime.py:33-47 | answers "Anime:" with the title buttons, "Add" and "End" |
| AnimeRoutes.AnimeAddHandler | app/telegram/routes/anime.py:50-67 | asks for the id; the form starts, remembering the message, only when that edit went through |
| AnimeRoutes.AnimeAddIdForm | app/telegram/routes/anime.py:70-111 | the actions, form step and data are those `AddIdStep` gives, and the table is unchanged |
| AnimeRoutes.AnimeAddNameForm | app/telegram/routes/anime.py:114-147 | the actions, form step, data and table are those `AddNameStep` gives |
| AnimeRoutes.InfoLines | app/telegram/routes/anime.py:169-174 | two spans per field: its bold label, then its value |
| AnimeRoutes.InfoFieldsOfRow | app/telegram/routes/anime.py:155-159 | each shown field holds what the row's dict holds under its key |
| AnimeRoutes.InfoKeyboard | app/telegram/routes/anime.py:176-179 | the action buttons, then "End" |
| AnimeRoutes.InfoMessage | app/telegram/routes/anime.py:157-174 | the name header, then one line per field |
| AnimeRoutes.AnimeInfoHandler | app/telegram/routes/anime.py:150-185 | shows the latest snapshot with its buttons; with no snapshot it raises reading the name |
| AnimeRoutes.AnimeUpdateHandler | app/telegram/routes/anime.py:188-252 | the actions, table and raised error are those `UpdateStep` gives |
| AnimeRoutes.AnimeRenameHandler | app/telegram/routes/anime.py:255-273 | drops the keyboard and asks for the name; the form starts only when both sends went through |
| AnimeRoutes.AnimeRenameForm | app/telegram/routes/anime.py:276-296 | the actions, form step, data and table are those `RenameFormStep` gives |
| AnimeRoutes.AnimeDeleteHandler | app/telegram/routes/anime.py:299-306 | the title is deleted, and "deleted" answered, exactly when dropping the keyboard went through |
| AnimeRoutes.AddIdOutcomes | app/telegram/routes/anime.py:74-111 | the form moves on exactly when the message id was saved, the text is an integer, the catalog reports no error and the title is new; it then saves the prompt and the id; every other exit clears the data |
| AnimeRoutes.TypedIdIsRead | app/telegram/routes/anime.py:89 | an id typed with trailing whitespace is read as that id |
| AnimeRoutes.AddNameOutcomes | app/telegram/routes/anime.py:128-147 | with its keys and a text, the name step leaves the form and stores exactly one row, answering "Anime was added", exactly when the catalog sent a record the table accepts |
| AnimeRoutes.AddNameKeyErrors | app/telegram/routes/anime.py:118-129 | a missing key or text raises before anything is stored or the form is left |
| AnimeRoutes.AddFormAddsTitle | app/telegram/routes/anime.py:98-147 | after both steps, the title's latest snapshot is the new row, with the parsed id and the typed name |
| AnimeRoutes.NewTitleListed | app/crud/anime.py:9-16 | a snapshot of a new title is listed after all others |
| AnimeRoutes.InfoViewHeader | app/telegram/routes/anime.py:157 | the view opens with the title's bold name |
| AnimeRoutes.InfoLabelAt | app/telegram/routes/anime.py:169-174 | the fields' bold labels follow in order |
| AnimeRoutes.InfoValueAt | app/telegram/routes/anime.py:158-174 | each field's value line follows its label |
| AnimeRoutes.InfoRankLine | app/telegram/routes/anime.py:164-167 | a missing rank shows "-"; a rank shows grouped |
| AnimeRoutes.InfoNumberLines | app/telegram/routes/anime.py:166-167 | the mean and the two user counts show grouped |
| AnimeRoutes.InfoStatusLine | app/telegram/routes/anime.py:160-161 | the status shows as it is |
| AnimeRoutes.InfoTimeLine | app/telegram/routes/anime.py:162-163 | the snapshot time shows as `%Y-%m-%d %H:%M:%S` |
| AnimeRoutes.InfoNumberReadsBack | app/telegram/routes/anime.py:167 | a shown number, separators and sign aside, reads back as the number |
| AnimeRoutes.UpdateErrorStops | app/telegram/routes/anime.py:195-202 | an empty answer, once its error edit went through, changes nothing and sends just that edit |
| AnimeRoutes.UpdateEmptyFallsThrough | app/telegram/routes/anime.py:195-209 | an empty answer whose error edit was rejected falls through and raises, storing nothing |
| AnimeRoutes.RecordRenders | app/telegram/routes/anime.py:207-225 | a fetched record renders against any previous snapshot |
| AnimeRoutes.UpdateStoresWhen | app/telegram/routes/anime.py:193-245 | a snapshot is stored exactly when the catalog sent an acceptable record and the title has a snapshot; otherwise nothing but the error edit is sent |
| AnimeRoutes.UpdateStoredRow | app/telegram/routes/anime.py:236-252 | a stored snapshot is one new row under the stored name, stamped with the fetch time; the report against the previous snapshot is sent after it |
| AnimeRoutes.UpdateStepStores | app/telegram/routes/anime.py:236-252 | on the storing path the report renders and the record's row is appended |
| AnimeRoutes.UpdateErrorCodeRaises | app/telegram/routes/anime.py:207-219 | an error code raises at its key and stores nothing |
| AnimeRoutes.UpdatedIsLatest | app/telegram/routes/anime.py:236-245 | with a clock that does not run backwards, the stored snapshot becomes the latest |
| AnimeRoutes.RenameFormEffect | app/telegram/routes/anime.py:294-296 | the form is left, every row of the title and no other is renamed, and the title is listed once under its new name |
| AnimeRoutes.RenameFormMissingKeys | app/telegram/routes/anime.py:280-294 | without the saved message id the form is left with nothing renamed; a missing title id or text raises |
| Webhooks.TelegramWebhook | app/api/webhooks.py:20-28 | the update is fed exactly when the header secret matches; otherwise 401 "NOT VERIFIED" |
| Webhooks.Caption | app/api/webhooks.py:51-53 | the caption renders as `sender:` on one line, then the message |
| Webhooks.NotificationsPost | app/api/webhooks.py:31-91 | a wrong secret gives 401 "NOT VERIFIED"; an accepted request answers "Got" after exactly one delivery |
| Webhooks.NotificationsGet | app/api/webhooks.py:94-114 | accepted exactly when the secret matches and the sender is allowed; then one message and "Notification sended" |
| Webhooks.PostSenderChecked | app/api/webhooks.py:40-43 | a verified request from a sender not in the list is refused with 401 "NOT ALLOWED" |
| Webhooks.PostAcceptedMeansChecked | app/api/webhooks.py:35-43 | an accepted POST had the right secret and an allowed sender |
| Webhooks.DisplayedSenderIsContent | app/api/webhooks.py:40-48 | what is shown comes from the content alone, whichever allowed outer sender authenticated it |
| Webhooks.DeliveryChoice | app/api/webhooks.py:50-89 | no payload gives the caption alone; a payload over 4000 characters with the texts goes as a document, otherwise inline after the caption |
| Webhooks.GetRefusals | app/api/webhooks.py:98-104 | after a matching secret, the GET endpoint refuses exactly the senders not in the list, and always as "NOT ALLOWED" |

## Left out

- I/O is not modelled: the Telegram Bot API, the HTTP clients, the database session and the secrets store. Their outcomes are parameters: a fetch's answer, whether a send or edit went through, what the store returned.
- The clock is a parameter (microseconds since 1970, UTC), and so are the fetch results of the periodic job. Sleeping and task cancellation are the iterations of a trace.
- Logger calls are not modelled, except the log that `Job.loop`/`start`/`stop` keep, which is part of that class's state.
- The application wiring in app/app.py and the `start`/`stop` handlers in app/telegram/routes/base.py:19-40 are not modelled. They only register the bot's commands and set or drop the webhook.
- `load_secrets_sync`, `load_secrets_async` and `load_creds_*` (app/common/config.py:57-119) are not modelled as requests: only their outcome is, with `Admin.LoadError`'s error text. Decoding the YAML credentials file is not modelled either.
- Routing by form state and by callback filter is the caller's concern. Each handler is modelled as what it does once it is invoked.
- The packed wire form of `CallbackData` is not modelled, nor the row layout of keyboards (`adjust`).
- Formatting: the rendered message entities (offsets and lengths) are not modelled, only the text and each span's style.
- `json.dumps` and Python's `str` of a list or dict are parameters. Nothing is stated about their text.
- AnimeJob.GetInterval works in UTC only, at microsecond resolution. A float delay value is not modelled, because the value model has no floats. A str or list delay value, which Python repeats, is kept only as its type name for the TypeError the sleep then raises.
- Report.Subtract: `mean` is kept as an integer, so the float arithmetic and `round(diff, 3)` of the mean's delta are not modelled.
- Text: case mapping is ASCII only.
- Json.PyEq does not equate a bool nested inside a list with the matching int, as Python would.
- Admin.ListRepr models `str(list)` only for names without quotes or backslashes. Python escapes those differently.
- Config: `secrets_data` is assumed to be a dict.
- Webhooks compare the secrets `NOTIFICATIONS_SECRET_POST` and `NOTIFICATIONS_SECRET_GET` (app/api/webhooks.py:36,98). `apply_secrets` never assigns either of them; it assigns `NOTIFICATIONS_SECRET` (app/common/config.py:231). The model takes the compared secrets as parameters, so it does not capture the AttributeError this raises.
- app/db/common.py (`get_model_dict`) is not part of this model. A missing row is taken to give `{}`, and a row the dict of its columns.
- Messages answered outside a `suppress(TelegramBadRequest)` block are taken to be delivered. The old message entities reused in the update handler's error edit are not modelled.
- app/telegram/commands.py and app/telegram/utils/forms.py hold only data: `COMMANDS_BOT` and the form states respectively. They appear as constants.
- Crud.Items fixes first-occurrence order for `SELECT DISTINCT`, where the database promises no order (there is no ORDER BY).
- JobBase.Job.RunIterations: its contract states only that it stops at the first step that ends the loop. The full step-by-step fact is JobBase.LoopStepsFollowTrace.
