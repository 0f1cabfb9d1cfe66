# smar-mcp version backup, prompt engine and client rules, in Dafny

smar-mcp is a Model Context Protocol server over the Smartsheet REST API. This project
models the parts of it that decide things, and proves what they promise:

- **Point-in-time reconstruction** (`createVersionBackup`). A sheet must sit in a
  workspace. The first folder named `Backup of <sheet name>` is reused, or else created.
  The sheet is copied into that folder. The cells that existed at the target moment are
  listed, and the history entry in effect at that moment is looked up for each of them.
  Then every row of the copy is deleted, and the rows rebuilt from the historical values
  are added back in batches. A failure becomes an error code.
  - The network is a `Service` value: what each call would return. Each run returns the
    trace of calls it made, so "no folder is created" or "no row is added" can be stated.
  - Timestamps are integers. The formatted date in the archive's default name is an
    opaque string.
- **Sheet helpers**: the history lookup (a stable sort newest first, then a scan), the
  candidate cells, `chunkArray`, `processBatches`, system-column detection and the
  two-pass column mapping.
- **Prompts**:
  - the name-keyed registry, as a class whose `prompts` field `register` updates;
  - `{name}` substitution and variable extraction, over the pattern `/\{([^}]+)\}/g`;
  - required-argument validation;
  - the keyword rules that pick completion suggestions.
- **Notifications**:
  - the per-level rate limiter, as a class holding `counts` and `lastReset`, with "now"
    passed in;
  - the recursive redaction of log data;
  - the shape of the log notification.
- **Resource clients** (`SmartsheetDirectAPI`, `SmartsheetAPI`):
  - constructor checks, query building and the shape of the thrown error;
  - the shared retry loop. Only a 429 is retried, at most three times, with a delay
    bounded below by Retry-After and by an exponential backoff.
  - The network is a function from attempt number to response, and the jitter is a
    function from attempt number to whole milliseconds.

JSON values are the `Json` datatype, and an absent field is `None`. Truthiness, `String(x)`,
`toLowerCase` (ASCII), `includes`, `trim` and `parseInt` follow JavaScript.

Files:
- `js_values.dfy`: JSON and the string helpers.
- `sheet_model.dfy`: sheets, rows, cells, columns, history entries.
- `cell_history.dfy`: the history lookup.
- `sheet_utils.dfy`: the other helpers.
- `cell_payload.dfy`: one cell of an added row.
- `archive_rows.dfy`: the row maps and row assembly.
- `workflows.dfy`: the whole run.
- `prompt_handler.dfy`, `notification_helpers.dfy`, `http_client.dfy`, `direct_api.dfy`,
  `smartsheet_api.dfy`.

## Model

| member | source | states |
|---|---|---|
| CellHistory.SortNewestFirst | src/smartsheet-utils.ts:16-18 | the sorted copy is a permutation of the history and is ordered newest first |
| CellHistory.InsertKeepsOrder | src/smartsheet-utils.ts:16-18 | inserting an entry into a newest-first list keeps it newest first |
| CellHistory.ChosenIndex | src/smartsheet-utils.ts:16-23 | reference definition of the entry in effect: absent exactly when every entry is later than the target; otherwise not later than the target, no entry at or before the target is later than it, and it comes before its ties in input order |
| CellHistory.ScanFindsChosen | src/smartsheet-utils.ts:16-23 | the first entry at or before the target in the stably sorted list is the reference entry |
| CellHistory.InsertLater | src/smartsheet-utils.ts:16-23 | inserting an entry later than the target does not change what the scan finds |
| CellHistory.InsertEarlier | src/smartsheet-utils.ts:16-23 | inserting an entry at or before the target makes the scan find it exactly when it is not older than the previous find |
| CellHistory.ScanNotLater | src/smartsheet-utils.ts:21-23 | the loop stops at the first entry not later than the target, or at the end |
| CellHistory.FindCellValueAtTimestamp | src/smartsheet-utils.ts:11-81 | null exactly when every entry is later than the target; otherwise the fields of the reference entry, copied unchanged; the input is not reordered |
| SheetUtils.GetCellsExistingAtTime | src/smartsheet-utils.ts:89-114 | the loops emit exactly the candidate list `ExistingCells`, row order then cell order |
| SheetUtils.ExistingCellsMember | src/smartsheet-utils.ts:93-110 | a (row, column) pair is emitted exactly when its row was not created after the target and has a cell with that truthy column id and a non-null value |
| SheetUtils.RowCandidatesMember | src/smartsheet-utils.ts:99-109 | within a row, exactly the cells with a truthy column id and a defined, non-null value are candidates |
| SheetUtils.LaterRowIgnored | src/smartsheet-utils.ts:95-97 | a row created after the target contributes nothing, wherever it stands |
| SheetUtils.ExistingCellsAppend | src/smartsheet-utils.ts:93-111 | the candidates of two row lists are the candidates of each, in order |
| SheetUtils.ChunkArray | src/smartsheet-utils.ts:122-128 | concatenating the chunks gives back the input; every chunk but the last has `size` items and the last 1..size; no chunks exactly for empty input |
| SheetUtils.ChunkTotal | src/smartsheet-utils.ts:122-128 | n chunks of size `size` hold more than (n-1)·size and at most n·size items |
| SheetUtils.FullChunks | src/smartsheet-utils.ts:122-128 | chunks that are all full hold exactly count·size items |
| SheetUtils.FlattenAppend | src/smartsheet-utils.ts:122-128 | concatenation distributes over joined chunk lists |
| SheetUtils.FlattenMember | src/smartsheet-utils.ts:122-128 | an item of a chunk is an item of the input |
| SheetUtils.ProcessBatches | src/smartsheet-utils.ts:138-161 | one result per item, in item order, each the processed item; a pause between consecutive chunks only when the delay is positive, so (n-1)/batchSize pauses |
| SheetUtils.MapAllAppend | src/smartsheet-utils.ts:149-152 | mapping a joined list is joining the mapped parts |
| SheetUtils.IdentifySystemColumns | src/smartsheet-utils.ts:168-188 | an id is in the set exactly when some column with it has a truthy systemColumnType, type SYSTEM, a truthy systemColumnId or one of the four system titles |
| SheetUtils.TitleIndex | src/smartsheet-utils.ts:203 | `find` by title: the first target with that title, or none when no target has it |
| SheetUtils.IndexOfId | src/smartsheet-utils.ts:217 | `findIndex` by id: the first position with that id, or the length |
| SheetUtils.Unmapped | src/smartsheet-utils.ts:211 | the filter keeps exactly the source columns whose id is not yet mapped |
| SheetUtils.TitledIdsMember | src/smartsheet-utils.ts:202-208 | the ids the title pass sets are exactly the ids of source columns whose title some target has |
| SheetUtils.MapByTitle | src/smartsheet-utils.ts:202-208 | keys are exactly the title-matched source ids; the last source column with an id decides its value, the first target with its title |
| SheetUtils.MapUnmapped | src/smartsheet-utils.ts:216-224 | title entries are kept; each new entry maps a source id to the target at the id's first index; every unmapped column whose index is in range gets one |
| SheetUtils.MapByPosition | src/smartsheet-utils.ts:211-225 | the index pass over the filtered columns: title entries never overwritten, other in-range columns mapped by index |
| SheetUtils.MapColumnIds | src/smartsheet-utils.ts:196-229 | keys are source ids; title matches map to the first target with the title; other columns map by index exactly when the index is below the target count, and stay unmapped otherwise |
| Workflows.FirstNamedIndex | src/smartsheet-workflows.ts:66-72 | the position of the first folder with exactly that name, or the length |
| Workflows.FirstNamed | src/smartsheet-workflows.ts:66-72 | the first folder named exactly so, or none when no folder has the name |
| Workflows.FindBackupFolder | src/smartsheet-workflows.ts:64-75 | the loop reuses the first folder with the name; a new folder is needed exactly when that finds no truthy id |
| Workflows.SecondRunReuses | src/smartsheet-workflows.ts:57-80 | when no folder had the name, once a run created it a second run finds it and creates nothing |
| Workflows.IdlessMatchBlocksReuse | src/smartsheet-workflows.ts:64-80 | when the first folder with the name has no id, a folder created after it is never found first, so every later run creates another |
| Workflows.IncludeList | src/smartsheet-workflows.ts:125-133 | columnType and formula first; format always; the formatting fields exactly when formatting is included |
| Workflows.IncludeParamsSplit | src/smartsheet-workflows.ts:140 | the comma-joined include parameter splits back into the list |
| Workflows.Backfill | src/smartsheet-workflows.ts:147-160 | only the format may change: a falsy historical format is replaced by the current cell's truthy one, and otherwise the fields are returned unchanged |
| Workflows.HistoricalValuesMember | src/smartsheet-workflows.ts:136-166 | a (row, column) entry is stored exactly when some looked-up cell found an entry in effect, and it holds that lookup's result |
| Workflows.HistoricalRowsMember | src/smartsheet-workflows.ts:162-165 | a row has an entry exactly when one of its cells found a value |
| Workflows.HistoricalRowsBound | src/smartsheet-workflows.ts:479-480 | rowsProcessed never exceeds cellsProcessed |
| Workflows.FetchOne | src/smartsheet-workflows.ts:136-172 | one cell's lookup: the history call, the value in effect with its format backfilled, nothing on a failed call |
| Workflows.FetchBatch | src/smartsheet-workflows.ts:121-175 | one batch's lookups extend the stored values and the history calls exactly as the reference definition does |
| Workflows.FetchHistoricalValues | src/smartsheet-workflows.ts:112-181 | the batched loop stores exactly the reference values and makes one history call per candidate cell, in order |
| Workflows.HasUpdate | src/smartsheet-workflows.ts:223-263 | a row yields an update exactly when one of its cells maps to a column outside the system set |
| Workflows.CountRowUpdates | src/smartsheet-workflows.ts:213-271 | the update pass counts exactly the mapped rows with a non-system cell |
| Workflows.SendBatches | src/smartsheet-workflows.ts:456-466 | one AddRows per batch, in order, stopping at the first failure, whose error is returned |
| Workflows.SendRowBatches | src/smartsheet-workflows.ts:454-466 | every call adds 1..batchSize of the assembled rows; on success the calls together carry every assembled row, in order |
| Workflows.BatchCalls | src/smartsheet-workflows.ts:454-466 | the calls for the first n chunks carry those chunks, each within batchSize, together a prefix of the rows |
| Workflows.FirstMatchFrom | src/smartsheet-workflows.ts:507 | the first position where `columnId ` and a digit match, or the length |
| Workflows.ColumnIdMatch | src/smartsheet-workflows.ts:507-510 | a capture exactly when the pattern matches somewhere; it is the non-empty digit run after the first match |
| Workflows.ClassifyError | src/smartsheet-workflows.ts:484-521 | 404, 403 and 429 get their codes, each if and only if; INVALID_COLUMN_ID exactly for another status whose message contains it; ARCHIVE_FAILED otherwise; message or default; resourceType, retryAfter and columnId only with their codes |
| Workflows.ClientRateLimitHasNoRetryAfter | src/smartsheet-workflows.ts:501-503 | a 429 from the resource client, whose formatted error has no headers, is RATE_LIMIT_EXCEEDED with no retryAfter |
| Workflows.NoWorkspaceFails | src/smartsheet-workflows.ts:50-54 | a sheet outside a workspace ends in ARCHIVE_FAILED with the workspace message |
| Workflows.LocateFolder | src/smartsheet-workflows.ts:61-80 | the folders are listed first; with a reusable match that is the only call and the match's id is the result; otherwise exactly one create of the backup folder follows, and the step succeeds exactly when that returns a non-empty id; a failure is the stopping call's error |
| Workflows.CopyAndRead | src/smartsheet-workflows.ts:90-103 | copy into the folder under the name, then read the copy; a failure carries the thrown error |
| Workflows.CopyToBackup | src/smartsheet-workflows.ts:61-103 | the copy goes into exactly the folder found or created, under the name, and is read back; a folder is created only when the listing has no reusable one; no row calls; a failure is the stopping call's error |
| Workflows.PrepareArchive | src/smartsheet-workflows.ts:45-103 | the first call reads the source; a failed read or a missing workspace stops there; a folder is created only when the listing has no reusable one; on success the copy has the archive name, sits in the folder found or created and is read back; a failure is the stopping call's error |
| Workflows.AssembledRowsWellFormed | src/smartsheet-workflows.ts:285-450 | every assembled row adds to the bottom, has cells, and each cell is well formed |
| Workflows.BuildPlan | src/smartsheet-workflows.ts:206-211 | the plan holds the source, the historical values, the archive's system column ids and a column map meeting the mapping's contract |
| Workflows.PlanForUnique | src/smartsheet-workflows.ts:105-211 | the gathered facts determine the plan: two plans faithful to the same run are equal |
| Workflows.GatherPlan | src/smartsheet-workflows.ts:105-211 | the plan holds the reference historical values, the archive's system ids, the source and its column map; the history calls are exactly one per candidate cell, in order; cellsProcessed is the candidate count and rowsUpdated the reference update count |
| Workflows.SendAssembled | src/smartsheet-workflows.ts:285-466 | only adds to the archive, each of 1..batchSize rows; on success they carry exactly the assembled rows; a failure is the last call's error |
| Workflows.ReplaceRows | src/smartsheet-workflows.ts:273-466 | with archive rows, the first call deletes exactly all of them and is the only delete; with none there is no delete; then adds to the archive; on success every call succeeded and the rows sent are exactly the assembled rows; a failure is the last call's error |
| Workflows.ReplaceAfterHistory | src/smartsheet-workflows.ts:112-466 | after the reference history calls, the delete of every archive row when there are any, then adds to the archive; a failure is the last call's error |
| Workflows.FillArchive | src/smartsheet-workflows.ts:105-483 | the history calls, then the delete of every archive row when there are any, then adds to the archive; a failure is the last call's error; on success every call succeeded, the outcome's fields are the options' and the archive's, cellsProcessed is the candidate count, rowsProcessed the plan's row count, rowsUpdated the reference update count, and the rows sent are the plan's assembled rows |
| Workflows.JoinCalls | src/smartsheet-workflows.ts:115-466 | history calls before the row calls send no rows |
| Workflows.CreateVersionBackup | src/smartsheet-workflows.ts:30-522 | the first call reads the source; no workspace means that is the only call and the outcome is its classified error; a folder is created only when none can be reused; every add is well formed; a failure is the classified error of the call the run stopped at; a success names the copy made in the chosen folder and read back, after which the archive was filled as FillArchive states, with ordered counts |
| Workflows.FinishBackup | src/smartsheet-workflows.ts:105-522 | given a completed preparation, the trace extends it with no further folder creation and only well-formed adds; a failure is the classified error of the call the run stopped at; a success is a backup of the source into the chosen folder, filled as FillArchive states, with ordered counts |
| ArchiveRows.RowNumberMapLastWins | src/smartsheet-workflows.ts:188-191 | a row number is a key exactly when some archive row has it, and it maps to the id of the last such row |
| ArchiveRows.RowIdMapMember | src/smartsheet-workflows.ts:194-199 | a source row is mapped exactly when its number maps to a truthy archive id, and then to that id |
| ArchiveRows.BuildRowIdMap | src/smartsheet-workflows.ts:185-199 | the two loops build exactly the reference row map |
| ArchiveRows.RowsUpdated | src/smartsheet-workflows.ts:213-271 | the update count never exceeds the rows with values |
| ArchiveRows.RowsUpdatedAll | src/smartsheet-workflows.ts:213-271 | with no system columns and every row mapped, every row with values is counted |
| ArchiveRows.AssembleCells | src/smartsheet-workflows.ts:294-442 | the column loop builds exactly the reference cell list of the row |
| ArchiveRows.AssembleRows | src/smartsheet-workflows.ts:285-450 | the row loop builds exactly the reference row list |
| ArchiveRows.RowCellsMember | src/smartsheet-workflows.ts:297-313 | a cell is emitted exactly when it is built for a column that is mapped and not a system column; each emitted cell is well formed, with a truthy target id outside the system set |
| ArchiveRows.RowsToAddAppend | src/smartsheet-workflows.ts:288-450 | the rows assembled from joined source rows are the joined assemblies, in source order |
| ArchiveRows.RowsToAddShape | src/smartsheet-workflows.ts:288-449 | no more added rows than source rows; each adds to the bottom, is non-empty, and comes from a source row with values |
| ArchiveRows.RowsToAddWellFormed | src/smartsheet-workflows.ts:285-450 | every cell of every added row is well formed and targets a non-system column |
| ArchiveRows.DurationCell | src/smartsheet-workflows.ts:328-332 | a Duration column's cell gets the fixed formula and no value |
| CellPayload.CellPayload | src/smartsheet-workflows.ts:318-439 | Duration formula, then a formula with the historical one preferred, then the value or null; exactly one of formula, value, objectValue; no links or objectValue with a formula; format from history, current cell, column; attributes only with a historical entry |
| CellPayload.BuildCellAdd | src/smartsheet-workflows.ts:318-439 | the field-by-field mutation, including the value's deletion, yields exactly that payload |
| CellPayload.AttachFormats | src/smartsheet-workflows.ts:361-384 | format and conditional format set as the precedence says |
| CellPayload.AttachLinks | src/smartsheet-workflows.ts:386-429 | links, image and objectValue set as the precedence says, the value removed with an objectValue |
| PromptHandler.FindPrompt | src/prompts/prompt-handler.ts:58-60 | the prompt found has the name; none exactly when no prompt has it |
| PromptHandler.FindAfterAppend | src/prompts/prompt-handler.ts:45 | after appending a new name, it finds the new prompt and every other lookup is unchanged |
| PromptHandler.InCategory | src/prompts/prompt-handler.ts:72-74 | exactly the prompts of the category |
| PromptHandler.InCategoryConcat | src/prompts/prompt-handler.ts:72-74 | filtering joined lists joins the filtered parts, so registration order is kept |
| PromptHandler.InCategoryAppend | src/prompts/prompt-handler.ts:39-46 | a newly registered prompt is listed last in its own category and in no other |
| PromptHandler.PromptRegistry.constructor | src/prompts/prompt-handler.ts:34 | the registry starts empty |
| PromptHandler.PromptRegistry.Has | src/prompts/prompt-handler.ts:65-67 | true exactly when some registered prompt has the name |
| PromptHandler.PromptRegistry.Get | src/prompts/prompt-handler.ts:58-60 | a prompt exactly when the name is registered, and then the one with that name |
| PromptHandler.PromptRegistry.GetAll | src/prompts/prompt-handler.ts:51-53 | every registered prompt, in registration order; the names listed are exactly the registered names |
| PromptHandler.PromptRegistry.GetByCategory | src/prompts/prompt-handler.ts:72-74 | exactly the registered prompts with the category |
| PromptHandler.PromptRegistry.Register | src/prompts/prompt-handler.ts:39-46 | a duplicate name is refused with the message and the registry unchanged; otherwise the prompt is appended and found under its name; other names and other categories unchanged |
| PromptHandler.Placeholder | src/prompts/prompt-handler.ts:89 | a match at the front is `{`, a non-empty name, and the first `}` |
| PromptHandler.PlaceholderMatches | src/prompts/prompt-handler.ts:89 | the pattern matches at the front exactly when `{`, a character other than `}`, and a later `}` follow; the name has no `}` |
| PromptHandler.SubstituteIdentity | src/prompts/prompt-handler.ts:88-96 | when no extracted variable is defined, substitution returns the template unchanged |
| PromptHandler.SubstituteNoVariables | src/prompts/prompt-handler.ts:88-96 | with no variables, every template is returned unchanged |
| PromptHandler.SubstituteWithIdentity | src/prompts/prompt-handler.ts:89-95 | a callback that gives each placeholder back leaves the text as it is |
| PromptHandler.SubstituteDefined | src/prompts/prompt-handler.ts:90-94 | a placeholder whose trimmed name has a non-null value becomes `String(value)` |
| PromptHandler.NamesTrimmed | src/prompts/prompt-handler.ts:89-104 | every placeholder's trimmed name is among the extracted variables |
| PromptHandler.ExtractWithoutBraces | src/prompts/prompt-handler.ts:101-105 | a template without `{` has no variables |
| PromptHandler.MissingRequired | src/prompts/prompt-handler.ts:115-119 | never more names than parameters |
| PromptHandler.MissingRequiredMember | src/prompts/prompt-handler.ts:115-119 | a name is listed exactly when a required parameter with it has an undefined or null variable |
| PromptHandler.OptionalNeverMissing | src/prompts/prompt-handler.ts:115 | optional parameters are never listed |
| PromptHandler.ValidateVariables | src/prompts/prompt-handler.ts:110-125 | valid exactly when nothing is missing; the missing list is the required parameters without a value, in order |
| PromptHandler.Suggestions | src/prompts/prompt-handler.ts:160-176 | empty exactly when no keyword occurs in the lower-cased name; "sheet" wins over everything, then "column", then user, assignee or owner, then "status", then "priority", each giving its own list |
| PromptHandler.SuggestionsIgnoreCase | src/prompts/prompt-handler.ts:161 | suggestions do not depend on the case of the name |
| NotificationHelpers.Reset | src/server/notification-helpers.ts:71-75 | afterwards `now` lies inside the current window (and at or after its start when the clock has not gone back); the window start never moves back; each count is either kept or cleared to 0; and the per-key bound on the counts is kept |
| NotificationHelpers.Check | src/server/notification-helpers.ts:68-94 | limited exactly when the level's count after the reset is at least 100; other levels' counts unchanged |
| NotificationHelpers.CheckBounded | src/server/notification-helpers.ts:82-92 | counts never exceed 101 |
| NotificationHelpers.CheckAfterWindow | src/server/notification-helpers.ts:72-92 | a call past the window starts afresh: count 1, not limited |
| NotificationHelpers.LevelKeysDistinct | src/server/notification-helpers.ts:78 | distinct levels have distinct keys |
| NotificationHelpers.LevelsIndependent | src/server/notification-helpers.ts:77-93 | a call for one level changes neither another level's count nor its answer |
| NotificationHelpers.RunWithinWindow | src/server/notification-helpers.ts:77-93 | within one window the i-th call is limited exactly when count + i ≥ 100; the count grows to at most 101 and stays there |
| NotificationHelpers.FirstHundredPass | src/server/notification-helpers.ts:77-93 | from a fresh window the first 100 calls pass and all later ones are limited |
| NotificationHelpers.RateLimiting.constructor | src/server/notification-helpers.ts:13-18 | no counts, window starting now |
| NotificationHelpers.RateLimiting.IsRateLimited | src/server/notification-helpers.ts:68-94 | the fields and the answer are exactly the reference step's; the bound on counts is kept |
| NotificationHelpers.SanitizeValue | src/server/notification-helpers.ts:110-127 | a sensitive key gives "[REDACTED]"; a non-object passes unchanged; an object keeps its keys and each of its values is sanitised under its own key |
| NotificationHelpers.SanitizeFields | src/server/notification-helpers.ts:108-128 | the output has exactly the input's keys, in order; a sensitive key's value is "[REDACTED]", any other non-object value is kept, and each value is its sanitised self |
| NotificationHelpers.SanitizeLogData | src/server/notification-helpers.ts:102-131 | undefined for no data; otherwise the same keys in the same order, each value sanitised under its key |
| NotificationHelpers.SanitizedHasNoSecrets | src/server/notification-helpers.ts:110-127 | no sensitive key at any depth keeps a value other than "[REDACTED]" |
| NotificationHelpers.SanitizedIsClean | src/server/notification-helpers.ts:110-127 | one sanitised entry is clean at every depth |
| NotificationHelpers.SanitizeKeepsClean | src/server/notification-helpers.ts:110-127 | clean data passes unchanged |
| NotificationHelpers.SanitizeIdempotent | src/server/notification-helpers.ts:102-131 | sanitising twice is sanitising once |
| NotificationHelpers.LogPayload | src/server/notification-helpers.ts:47-55 | level and message copied; logger exactly when the name is truthy; data exactly when given, sanitised, with no secrets |
| NotificationHelpers.SendLogNotification | src/server/notification-helpers.ts:33-60 | the limiter steps as the reference says; nothing is sent exactly when limited; otherwise the payload above |
| HttpClient.FormatError | src/smartsheet-direct-api.ts:98-107 | the body's truthy message else the transport's; the status, errorCode and detail copied |
| HttpClient.BuildQuery | src/smartsheet-direct-api.ts:50-56 | no parameters give no query; otherwise the loop appends exactly the reference pairs |
| HttpClient.QueryPairsMember | src/smartsheet-direct-api.ts:50-56 | a pair is appended exactly when its key has a defined, non-null value whose string it is |
| HttpClient.QueryPairsAllDefined | src/apis/smartsheet-api.ts:69-75 | when every value is defined, every parameter is appended in order |
| HttpClient.DefaultRetryAfter | src/smartsheet-direct-api.ts:75 | a missing or empty Retry-After reads as 1 second |
| HttpClient.RetryDelay | src/smartsheet-direct-api.ts:75-79 | the delay is at least 2^retries·1000 + jitter, at least Retry-After·1000 when numeric, and equals the written delay whenever that is a number |
| HttpClient.DelayAsWritten | src/apis/smartsheet-api.ts:94-98 | the written delay is NaN exactly when Retry-After does not parse; otherwise at least both bounds |
| HttpClient.TimerWait | src/smartsheet-direct-api.ts:81 | the timer keeps a delay from 1 ms to 2^31-1 ms and waits 1 ms for NaN or any other delay |
| HttpClient.TimerWaitAgrees | src/smartsheet-direct-api.ts:75-81 | the timer waits the intended retry delay exactly when Retry-After is a number and the delay fits the timer; otherwise 1 ms |
| HttpClient.HttpDateRetriesAtOnce | src/smartsheet-direct-api.ts:75-81 | an HTTP-date Retry-After makes the written delay NaN and the timer wait 1 ms, below the 1000 ms backoff |
| HttpClient.Waits | src/smartsheet-direct-api.ts:74-82 | one wait per retry |
| HttpClient.WaitsAreDelays | src/smartsheet-direct-api.ts:74-82 | after n rate-limited attempts each wait is what the timer makes of that attempt's written delay, which is its retry delay whenever Retry-After is a number and the delay fits the timer |
| HttpClient.RequestWithRetry | src/smartsheet-direct-api.ts:42-91 | at most 3 retries, each after a 429, waiting what the timer makes of the written delay (the retry delay when Retry-After is a number and the delay fits); fewer retries only when the last attempt was not a 429; success exactly when the last attempt answered, with its data; otherwise its formatted error |
| HttpClient.Request | src/apis/smartsheet-api.ts:55-110 | the query of the defined parameters, and the loop's outcome and waits above |
| DirectApi.NewDirectClient | src/smartsheet-direct-api.ts:19-26 | throws exactly when neither the token nor SMARTSHEET_API_KEY is truthy; the token prefers the argument; the base URL defaults to the public endpoint |
| DirectApi.DeleteRowsSent | src/smartsheet-direct-api.ts:181-186 | the query is the comma-joined ids, which split back into the ids, and ignoreRowsNotFound defaulting to "true" |
| DirectApi.CopyDestination | src/smartsheet-direct-api.ts:216-232 | folder when a folder id is truthy, else workspace when a workspace id is, else home |
| SmartsheetApi.NewClient | src/apis/smartsheet-api.ts:28-45 | succeeds exactly when token and base URL are non-empty; an empty token is reported before an empty URL |
| SheetModel.FindRow | src/smartsheet-workflows.ts:151-152 | the first row with the id, as `find` returns; none exactly when no row has it |
| SheetModel.FindCell | src/smartsheet-workflows.ts:153-154 | the first cell with the column id, as `find` returns; none exactly when no cell has it |
| JsValues.ParseIntDigit | src/smartsheet-direct-api.ts:77 | `parseInt` of one digit is that digit |
| JsValues.SplitJoin | src/smartsheet-direct-api.ts:183 | joining comma-free parts and splitting on the comma gives the parts back |

## Left out

- Network I/O (axios, URL building, headers), `setTimeout` waits and console logging are
  not modelled. Calls are an oracle (`Service`, or a function from attempt number to
  response). The retry loop returns the number of milliseconds each timer would wait;
  the passing of time is not modelled.
- `Promise.all` within a batch is treated as sequential. A batch's lookups are made in
  order, and their results are joined per batch.
- A failed history call is caught per cell and that cell gets no value. The error
  itself is not kept.
- Dates are not parsed. `new Date(...)` comparisons become integer comparisons, and
  `toLocaleString` is an opaque string in the options.
- `Math.random()` jitter is an integer number of milliseconds supplied per attempt. The
  model does not bound it by 1000: every stated lower bound holds for any jitter.
- `Date.now()` is a parameter of the rate limiter and of its constructor.
- The try/catch in `sendLogNotification` is left out: nothing inside it throws in the
  model.
- `toLowerCase` covers ASCII only.
- Numbers are integers. Floats and `String` of non-integers are not modelled.
- Row and column ids are strings. The source keys `historicalCellValues` by `String(id)`,
  so numeric ids in the real API would not match `rowIdMap.has`. The model does not
  capture that.
- Object keys inherited from the prototype (such as "constructor") are not modelled.
- The `createFolderResult.result.id` lookup may find no id. The model returns a
  failure there instead of copying into an unnamed folder.
- `ChunkArray`, `ProcessBatches`, `SendRowBatches` and `FetchHistoricalValues` require
  a positive size (or empty input). With size ≤ 0 the source loop never ends on
  non-empty input.
- `Workflows.CreateVersionBackup`, `Workflows.FillArchive` and `Workflows.GatherPlan`
  (with `ReplaceAfterHistory`, `ReplaceRows` and `SendAssembled` under them) require a
  positive `batchSize` and `maxConcurrentRequests` even when there are no cells or rows
  to process, a case the source accepts because its loops then run zero times. The
  repository's own callers pass 100 and 5.
- `PromptHandler.PromptRegistry.Register`: the schema check (`PromptDefinitionSchema.parse`)
  is not modelled; definitions are well typed by construction.
- `PromptHandler.PromptRegistry.Register` follows the code, which throws on a duplicate
  name. A unit test in the repository expects an overwrite instead.
- `registerPrompt`, `registerPromptHandlers`, `createPrompt` and
  `getPromptCompletionSuggestions` are server glue over the registry and are not
  modelled. The same goes for the suggestion lists' async wrappers.
- `NotificationHelpers.SanitizeValue`: JSON arrays pass through unchanged, including
  objects inside them, as in the source. Keys are assumed distinct.
- `HttpClient.RequestWithRetry`: the final "Maximum retries exceeded" throw cannot be
  reached and is not modelled.
- `Workflows.ClassifyError`: `error.headers['retry-after']` is a field of the thrown
  error in the model, so a service error may carry one. The resource clients' formatted
  errors never set `headers` (src/smartsheet-direct-api.ts:98-107,
  src/apis/smartsheet-api.ts:117-127), so for them RATE_LIMIT_EXCEEDED never carries a
  retryAfter; `Workflows.ClientRateLimitHasNoRetryAfter` states that case.
- `Workflows.CountRowUpdates`: only the count of the update pass reaches the result.
  Its cell updates are built but never sent, so they are not modelled.
- The other SmartsheetDirectAPI methods (getSheet, getCellHistory, addRows, …) are
  one-line request translators and are not modelled.

## Findings

| source | as written | input that shows it | evidently intended | confidence | as-written member | corrected member |
|---|---|---|---|---|---|---|
| src/smartsheet-direct-api.ts:75-81 and src/apis/smartsheet-api.ts:94-100 | the delay is `Math.max(parseInt(retryAfter, 10) * 1000, 2^retries * 1000 + jitter)`. When Retry-After is not a number, `parseInt` gives NaN, `Math.max` gives NaN, and Node's `setTimeout` treats NaN as 1 ms, so the retry goes out at once | a 429 with `Retry-After: Wed, 21 Oct 2015 07:28:00 GMT` (the HTTP-date form allowed by section 10.2.3 of RFC 7231) | fall back to the exponential backoff, so the delay is never below 2^retries seconds | not executed | HttpClient.DelayAsWritten, HttpClient.HttpDateRetriesAtOnce, HttpClient.RequestWithRetry | HttpClient.RetryDelay, HttpClient.TimerWaitAgrees |
