# GeoMarker.Frontiers job orchestration, modelled in Dafny

GeoMarker.Frontiers runs DeGAUSS geocoding jobs (geocode, drive time, deprivation index, census block group) behind a web application. This project models the core that starts those jobs, follows them to completion and cleans up after them, and proves what that core promises.

The model covers:

- **The status oracle and command façade** (`degauss_commands.dfy`, `commands.dfy`). A job's status is read off a snapshot of its working directory `tmp/{guid}`, with a fixed order of precedence. The directory comes first, then its output files, then the freshness of the log, then whether a log exists at all. The sync, async and poll paths are built on that status, as is the fallback for a job the registry has forgotten.
- **The task registry** (`script_commands.dfy`). The list of running scripts is a class with a `seq` field: a successful start appends to it, a lookup can purge a finished task, and the exit hook flips a task to Success.
- **The request store and its chains** (`request_repository.dfy`, `web_models.dfy`). The database context is a class holding two maps: Requests, keyed by GUID, and RecordsProcessed. A composite job is a singly linked list of requests through NextRequest. DeleteRequestChain and ApplyStatusToRequestChain walk that list. A chain is called *closed* when the walk ends at an empty link or at a GUID with no row, rather than coming back to a node it has visited.
- **The refresh sweeps** (`api_requests.dfy`). The batch sweep and the composite sweep poll every listed request and write the answer back. In the composite sweep, a success hands the node's output on to the next node, and a failure is stamped on the rest of the chain. The remote services are oracles: functions from a request type and a GUID to what the typed client would answer.
- **Composite chain construction and the form routing** (`home.dfy`). The selected types are sorted and reversed in place. A waiting node is inserted for each type but the last, and the last type is submitted. The error details of a refused start are marshalled into a message.
- **The retention jobs** (`file_cleanup.dfy`, `stale_requests.dfy`, `job_config.dfy`). Both check their KeepAliveDays configuration first. FileCleanupJob then deletes old job directories, and DeleteStaleRequestsJob deletes old single-address requests.
- **The metrics records** (`metadata.dfy`, `records_admin.dfy`). These cover adding, completing and failing a RecordsProcessed row, counting a file's records, the duration text, and the admin totals.
- **The input validators** (`request_validation.dfy`, `composite_validation.dfy`, `file_name_validation.dfy`). These are the CSV upload rules, the JSON composite request rules and the upload form's file-name attribute.
- **Supporting modules.** `text.dfy` models the .NET string, path and parsing routines these rules rely on. `time.dfy` models instants and spans as 100-nanosecond ticks, with C#'s truncating division. `wrappers.dfy` holds Option and Result.

Clocks, Guid.NewGuid and remote answers are parameters. Exceptions are explicit outcomes, `Result` or `Option` values, or an `aborted` flag. A state-changing C# method is a Dafny method on a class. Its ensures ties the new state to a function of the old state, and lemmas prove what the source promises about that function.

## Model

| member | source | states |
|---|---|---|
| Commands.NewTask | GeoMarker.Frontiers/GeoMarker.Frontiers.Core/Models/Commands/CommandTask.cs:7-12 | a task as first built carries the caller's GUID and command, no process and status Unknown |
| WebModels.Ordinal | GeoMarker.Frontiers/GeoMarker.Frontiers.Web/Models/DeGaussRequestType.cs:5-11 | every request type but Unknown has an underlying value below 6 |
| WebModels.OrdinalInjective | GeoMarker.Frontiers/GeoMarker.Frontiers.Web/Models/DeGaussRequestType.cs:5-11 | two types have the same underlying value only when they are the same type, so sorting a type list by value has no ties |
| WebModels.UserRequestsDbContext.constructor | GeoMarker.Frontiers/GeoMarker.Frontiers.Web/Data/UserRequestsDbContext.cs:8-9 | both tables, Requests and RecordsProcessed, start empty |
| ScriptCommands.FirstIndex | GeoMarker.Frontiers/GeoMarker.Frontiers.Core/Services/ScriptCommandService.cs:104 | the position of the first task with the GUID, None exactly when no task has it |
| ScriptCommands.FirstIndexAt | GeoMarker.Frontiers/GeoMarker.Frontiers.Core/Services/ScriptCommandService.cs:104 | a position holding the GUID with no earlier one is the position the lookup finds |
| ScriptCommands.StartedTask | GeoMarker.Frontiers/GeoMarker.Frontiers.Core/Services/ScriptCommandService.cs:65-92 | a start gives a Processing task with a process and the caller's GUID and command (stdout and stderr kept only for a json command); a failed start gives a Rejected task without a process |
| ScriptCommands.LookupResult | GeoMarker.Frontiers/GeoMarker.Frontiers.Core/Services/ScriptCommandService.cs:104-107 | the lookup fails with NoTask exactly when no task has the GUID, and otherwise returns a registered task with that GUID |
| ScriptCommands.ScriptCommandService.constructor | GeoMarker.Frontiers/GeoMarker.Frontiers.Core/Services/ScriptCommandService.cs:18-22 | the registry starts empty |
| ScriptCommands.ScriptCommandService.ExecuteCommand | GeoMarker.Frontiers/GeoMarker.Frontiers.Core/Services/ScriptCommandService.cs:30-93 | returns the started or rejected task and appends it to the registry only when the process started |
| ScriptCommands.ScriptCommandService.GetCommandTask | GeoMarker.Frontiers/GeoMarker.Frontiers.Core/Services/ScriptCommandService.cs:102-116 | returns the first task with the GUID or NoTask, and removes that task only when it is Success, Failure or Removed and purging was asked for |
| ScriptCommands.ScriptCommandService.HandleExited | GeoMarker.Frontiers/GeoMarker.Frontiers.Core/Services/ScriptCommandService.cs:118-126 | sets the first task with the GUID to Success, whatever the exit code; with no such task the registry is unchanged |
| ScriptCommands.StartRegistersOnce | GeoMarker.Frontiers/GeoMarker.Frontiers.Core/Services/ScriptCommandService.cs:65-92 | a start appends exactly one Processing task with the caller's GUID after the old registry; a failed start returns Rejected and leaves the registry as it was |
| ScriptCommands.OnlyLivePreserved | GeoMarker.Frontiers/GeoMarker.Frontiers.Core/Services/ScriptCommandService.cs:65-126 | start, exit hook and lookup keep every registered task Processing or Success |
| ScriptCommands.LookupNeverFailure | GeoMarker.Frontiers/GeoMarker.Frontiers.Core/Services/ScriptCommandService.cs:102-116 | in a registry built by these operations a lookup never returns Failure |
| ScriptCommands.LookupPurge | GeoMarker.Frontiers/GeoMarker.Frontiers.Core/Services/ScriptCommandService.cs:109-115 | a purging lookup of a completed task removes exactly that one entry (the multiset loses it, the length drops by one); any other lookup leaves the registry unchanged |
| ScriptCommands.ExitTouchesFirstMatch | GeoMarker.Frontiers/GeoMarker.Frontiers.Core/Services/ScriptCommandService.cs:118-126 | the exit hook changes the status of the first match to Success and no other entry; with no match nothing changes |
| ScriptCommands.ExitThenPurgeForgets | GeoMarker.Frontiers/GeoMarker.Frontiers.Core/Services/ScriptCommandService.cs:102-126 | for a GUID registered once, exit followed by a purging lookup makes a second lookup fail with NoTask |
| ScriptCommands.DuplicateGuidSurvivesPurge | GeoMarker.Frontiers/GeoMarker.Frontiers.Core/Services/ScriptCommandService.cs:75 | the registry does not reject a second start under the same GUID: after exit and a purging lookup the second entry is still found, Processing |
| DeGaussCommands.SnapshotOf | GeoMarker.Frontiers/GeoMarker.Frontiers.Core/Services/DeGaussCommandService.cs:299-305 | the directory exists exactly when the job has one; the matches and the log come from that directory; a missing log reads as written at the 1601 sentinel |
| DeGaussCommands.GetStatusCases | GeoMarker.Frontiers/GeoMarker.Frontiers.Core/Services/DeGaussCommandService.cs:297-326 | each status in both directions: Removed iff no directory; Success iff the directory has output; Processing iff no output and a log written within the grace period; Queued iff no output, not fresh and no log; Failure otherwise |
| DeGaussCommands.GetStatus | GeoMarker.Frontiers/GeoMarker.Frontiers.Core/Services/DeGaussCommandService.cs:297-326 | the status is one of the five the oracle reports; Removed exactly when the directory is missing; Success exactly when it exists with output |
| DeGaussCommands.GetServiceStatusAsync | GeoMarker.Frontiers/GeoMarker.Frontiers.Core/Services/DeGaussCommandService.cs:96-113 | a poll never carries a stream and reports one of the five statuses |
| DeGaussCommands.GetServiceResultAsync | GeoMarker.Frontiers/GeoMarker.Frontiers.Core/Services/DeGaussCommandService.cs:115-149 | a result carries a stream exactly when it is Success, and the stream is one of the directory's matches |
| DeGaussCommands.MissingLogIsQueued | GeoMarker.Frontiers/GeoMarker.Frontiers.Core/Services/DeGaussCommandService.cs:299-320 | a directory with no output and no log is Queued once the freshness window starts after 1601 |
| DeGaussCommands.ShortestIndex | GeoMarker.Frontiers/GeoMarker.Frontiers.Core/Services/DeGaussCommandService.cs:127 | the index of the first path of minimal length: no path is shorter, every earlier path is longer |
| DeGaussCommands.ShortestPath | GeoMarker.Frontiers/GeoMarker.Frontiers.Core/Services/DeGaussCommandService.cs:127 | the path chosen is one of the matches |
| DeGaussCommands.HandleMissingCommandTask | GeoMarker.Frontiers/GeoMarker.Frontiers.Core/Services/DeGaussCommandService.cs:243-281 | no matches and no directory gives Removed; no matches with a directory gives Failure; matches give Success, with the shortest match as stream only when a file was asked for |
| DeGaussCommands.RemovedIffNoDirectory | GeoMarker.Frontiers/GeoMarker.Frontiers.Core/Services/DeGaussCommandService.cs:96-149 | the poll and the result say Removed exactly when the job's directory is missing, on the normal and the fallback path |
| DeGaussCommands.OutputMeansSuccess | GeoMarker.Frontiers/GeoMarker.Frontiers.Core/Services/DeGaussCommandService.cs:96-149 | with the directory present any output gives Success on both paths, whatever the log says, and the result streams the shortest match |
| DeGaussCommands.ResultStream | GeoMarker.Frontiers/GeoMarker.Frontiers.Core/Services/DeGaussCommandService.cs:115-149 | a result carries a stream exactly when it is Success, and the stream is the first match of minimal length; a poll never carries a stream |
| DeGaussCommands.FallbackIsSettled | GeoMarker.Frontiers/GeoMarker.Frontiers.Core/Services/DeGaussCommandService.cs:243-281 | the fallback never reports Processing or Queued |
| DeGaussCommands.PollIsLocal | GeoMarker.Frontiers/GeoMarker.Frontiers.Core/Services/DeGaussCommandService.cs:96-149 | the poll and the result read only the job's own directory; other jobs' directories do not change the answer, so polling twice with no change gives the same answer |
| DeGaussCommands.WriteInput | GeoMarker.Frontiers/GeoMarker.Frontiers.Core/Services/DeGaussCommandService.cs:233-241 | writing the input creates the job's directory if needed and updates its write time; every other directory is unchanged |
| DeGaussCommands.Items | GeoMarker.Frontiers/GeoMarker.Frontiers.Core/Services/DeGaussCommandService.cs:155-157 | one encoded item per address |
| DeGaussCommands.EncodeIsJoin | GeoMarker.Frontiers/GeoMarker.Frontiers.Core/Services/DeGaussCommandService.cs:155-157 | the address argument is the items each followed by ';' |
| DeGaussCommands.TerminateIsJoin | GeoMarker.Frontiers/GeoMarker.Frontiers.Core/Services/DeGaussCommandService.cs:155-157 | items each followed by ';' are the ';'-join of the items and one empty field |
| DeGaussCommands.DecodeItemsOfItems | GeoMarker.Frontiers/GeoMarker.Frontiers.Core/Services/DeGaussCommandService.cs:157 | splitting each item on a bar gives back its Id and Address when neither contains ';' or a bar |
| DeGaussCommands.EncodeDecode | GeoMarker.Frontiers/GeoMarker.Frontiers.Core/Services/DeGaussCommandService.cs:155-157 | the address encoding round-trips: decoding the argument gives back the addresses whenever no Id or Address contains ';' or a bar |
| DeGaussCommands.RemoveNewlines | GeoMarker.Frontiers/GeoMarker.Frontiers.Core/Services/DeGaussCommandService.cs:172 | the output with its line feeds removed has none, is no longer, and is the output itself when it had none |
| DeGaussCommands.RemoveNewlinesKeeps | GeoMarker.Frontiers/GeoMarker.Frontiers.Core/Services/DeGaussCommandService.cs:172 | removing line feeds keeps every other character, as often as it occurred, and drops every line feed |
| DeGaussCommands.RemoveNewlinesAppend | GeoMarker.Frontiers/GeoMarker.Frontiers.Core/Services/DeGaussCommandService.cs:172 | removing line feeds from two texts joined is removing them from each and joining |
| DeGaussCommands.SyncResultShape | GeoMarker.Frontiers/GeoMarker.Frontiers.Core/Services/DeGaussCommandService.cs:41-76 | a sync answer is Success with the first output file, or Failure without a stream; Success needs at least one output |
| DeGaussCommands.SyncResult | GeoMarker.Frontiers/GeoMarker.Frontiers.Core/Services/DeGaussCommandService.cs:41-76 | the sync call throws exactly when the task is not found or is neither Success nor Failure; a Success streams the first output, which exists |
| DeGaussCommands.CollectedShape | GeoMarker.Frontiers/GeoMarker.Frontiers.Core/Services/DeGaussCommandService.cs:41-73 | after a synchronous Success the job's directory is gone and every other directory is as before; otherwise the job's directory stays |
| DeGaussCommands.DeGaussCommandService.constructor | GeoMarker.Frontiers/GeoMarker.Frontiers.Core/Services/DeGaussCommandService.cs:19-25 | the service starts with the empty registry its base constructor gives and the configured grace period |
| DeGaussCommands.DeGaussCommandService.GetService | GeoMarker.Frontiers/GeoMarker.Frontiers.Core/Services/DeGaussCommandService.cs:27-77 | a failed start throws and keeps the registry; for a new GUID a run whose exit hook ran answers Success with the first output (deleting the directory) or Failure when there was none, and leaves the registry as before; a run still Processing throws; every answer is Success or Failure |
| DeGaussCommands.DeGaussCommandService.StartGetServiceAsync | GeoMarker.Frontiers/GeoMarker.Frontiers.Core/Services/DeGaussCommandService.cs:79-94 | returns exactly the caller's GUID when the process started and throws otherwise; the input is always written; the task is registered only on a start |
| DeGaussCommands.DeGaussCommandService.GetJsonAddressService | GeoMarker.Frontiers/GeoMarker.Frontiers.Core/Services/DeGaussCommandService.cs:151-189 | a failed start gives Rejected with the registry unchanged; a finished run of a new GUID gives Success with the output less its newlines and is purged; an unfinished one gives Rejected and leaves the registry with one more task, the started geocode_json.rb command, Processing, holding its output |
| DeGaussCommands.FreshRun | GeoMarker.Frontiers/GeoMarker.Frontiers.Core/Services/DeGaussCommandService.cs:34-39 | a start under a new GUID is found by the lookup after it; after the exit hook the purging lookup removes it and restores the registry, otherwise it stays Processing |
| Time.TruncDiv | GeoMarker.Frontiers/GeoMarker.Frontiers.Web/Models/RecordsProcessed.cs:38 | C# integer division: the quotient times the divisor lies within one divisor of the dividend, on the side of zero, for negative dividends too |
| Time.TruncMod | GeoMarker.Frontiers/GeoMarker.Frontiers.Web/Models/RecordsProcessed.cs:38 | C# remainder: it decomposes the dividend with TruncDiv, lies strictly within the divisor and carries the dividend's sign |
| JobConfig.KeepAliveDays | GeoMarker.Frontiers/GeoMarker.Frontiers.Core/Jobs/FileCleanupJob.cs:19-33 | a missing key, a value that is not a string, a string int.TryParse refuses and a negative number are all refused; otherwise the parsed value is the retention period |
| JobConfig.AcceptedDays | GeoMarker.Frontiers/GeoMarker.Frontiers.Core/Jobs/FileCleanupJob.cs:25-33 | an accepted value is a string that int.TryParse reads as a numeral (white space, an optional sign, digits, white space, trailing NULs) whose value is the retention period, at most int.MaxValue |
| JobConfig.NonNumeralRefused | GeoMarker.Frontiers/GeoMarker.Frontiers.Core/Jobs/FileCleanupJob.cs:25-33 | a KeepAliveDays string that is not a numeral is refused |
| JobConfig.DecimalDaysAccepted | GeoMarker.Frontiers/GeoMarker.Frontiers.Core/Jobs/FileCleanupJob.cs:25-33 | every day count from 0 to int.MaxValue, written as its decimal text, is accepted as itself |
| JobConfig.GuardExamples | GeoMarker.Frontiers/GeoMarker.Frontiers.Tests/GeoMarker/Frontiers/Core/Jobs/FileCleanupJobUnitTests.cs:40-74 | the job's test configurations: an empty map and "abc" are refused |
| JobConfig.NegativeDaysRefused | GeoMarker.Frontiers/GeoMarker.Frontiers.Core/Jobs/FileCleanupJob.cs:29 | "-1" parses but is refused for being negative |
| JobConfig.ThirtyDaysAccepted | GeoMarker.Frontiers/GeoMarker.Frontiers.Tests/GeoMarker/Frontiers/Core/Jobs/FileCleanupJobUnitTests.cs:17 | "30" is accepted as 30 days |
| FileCleanup.Execute | GeoMarker.Frontiers/GeoMarker.Frontiers.Core/Jobs/FileCleanupJob.cs:17-59 | ConfigurationError exactly for a refused KeepAliveDays and NoWorkingDirectory exactly for a missing tmp root, both deleting nothing; otherwise the sweep completes or stops on an overflow; a completed sweep saw no AddDays past DateTime.MaxValue and removes exactly the listed directories whose last write plus the kept days is at or before now, keeping every other one; an overflow stops the sweep at the first directory whose AddDays passes DateTime.MaxValue, with the deletions before it done; when no directory is that close to MaxValue the sweep completes |
| FileCleanup.ThirtyDayCutoff | GeoMarker.Frontiers/GeoMarker.Frontiers.Tests/GeoMarker/Frontiers/Core/Jobs/FileCleanupJobUnitTests.cs:17-29 | with 30 days kept, a directory written 31 days ago is over the cutoff and one written 29 days ago is not |
| FileCleanup.SweptJobReadsRemoved | GeoMarker.Frontiers/GeoMarker.Frontiers.Core/Jobs/FileCleanupJob.cs:49-56 | once the sweep has deleted a job's directory, polling that job gives Removed on the status and the result path, with no stream |
| FileCleanup.KeptStep | GeoMarker.Frontiers/GeoMarker.Frontiers.Core/Jobs/FileCleanupJob.cs:45-57 | one iteration of the loop removes the directory exactly when it is over the cutoff |
| StaleRequests.Swept | GeoMarker.Frontiers/GeoMarker.Frontiers.Web/Jobs/DeleteStaleRequestsJob.cs:40-48 | the rows that stay are exactly the rows that are not stale, unchanged |
| StaleRequests.DeleteStaleRequestsJob.constructor | GeoMarker.Frontiers/GeoMarker.Frontiers.Web/Jobs/DeleteStaleRequestsJob.cs:13-18 | the job works on the given database |
| StaleRequests.DeleteStaleRequestsJob.Execute | GeoMarker.Frontiers/GeoMarker.Frontiers.Web/Jobs/DeleteStaleRequestsJob.cs:20-50 | a refused KeepAliveDays changes nothing; otherwise every SingleAddress request uploaded more than the kept days before now is removed, nothing else changes, and the count reported is the number of rows removed |
| StaleRequests.DeleteStaleRequestsJob.RemoveEach | GeoMarker.Frontiers/GeoMarker.Frontiers.Web/Jobs/DeleteStaleRequestsJob.cs:44-48 | removing the queried rows one at a time leaves the store less exactly those rows |
| StaleRequests.OtherTypesKept | GeoMarker.Frontiers/GeoMarker.Frontiers.Web/Jobs/DeleteStaleRequestsJob.cs:41 | a request of any type but SingleAddress stays, unchanged, however old |
| StaleRequests.DeletedAreStale | GeoMarker.Frontiers/GeoMarker.Frontiers.Web/Jobs/DeleteStaleRequestsJob.cs:40-48 | the rows deleted are exactly the rows of the query |
| StaleRequests.SweepIdempotent | GeoMarker.Frontiers/GeoMarker.Frontiers.Web/Jobs/DeleteStaleRequestsJob.cs:40-48 | a second sweep at the same instant deletes nothing more |
| StaleRequests.LongerKeepsMore | GeoMarker.Frontiers/GeoMarker.Frontiers.Web/Jobs/DeleteStaleRequestsJob.cs:42 | a longer retention period deletes no more rows |
| StaleRequests.StrictCutoff | GeoMarker.Frontiers/GeoMarker.Frontiers.Web/Jobs/DeleteStaleRequestsJob.cs:42 | the cutoff is strict: a request exactly the kept days old stays and one a tick older goes |
| StaleRequests.SweepKeepsClosed | GeoMarker.Frontiers/GeoMarker.Frontiers.Web/Jobs/DeleteStaleRequestsJob.cs:44-48 | deleting the stale rows never creates a loop in the request chains that remain |
| StaleRequests.SweptIsRemoval | GeoMarker.Frontiers/GeoMarker.Frontiers.Web/Jobs/DeleteStaleRequestsJob.cs:40-48 | the swept store is the store less the stale GUIDs |
| RecordsAdmin.GetProcessTime | GeoMarker.Frontiers/GeoMarker.Frontiers.Web/Models/RecordsProcessed.cs:24-30 | the span is never negative, positive exactly when the record is Success with completion after upload, and then it is completion minus upload |
| RecordsAdmin.DurationFields | GeoMarker.Frontiers/GeoMarker.Frontiers.Web/Models/RecordsProcessed.cs:38 | hours, minutes and seconds of the text add up to the span's whole seconds, minutes and seconds lie within a minute, and all three carry the span's sign |
| RecordsAdmin.FailedFirst | GeoMarker.Frontiers/GeoMarker.Frontiers.Web/Models/RecordsProcessed.cs:34-35 | a Failure record reads "Failed" whatever its span and the flag |
| RecordsAdmin.ProcessingWhenUnfinished | GeoMarker.Frontiers/GeoMarker.Frontiers.Web/Models/RecordsProcessed.cs:36-38 | for a record neither Success nor Failure, its processing time reads "Processing" exactly when the flag is set |
| RecordsAdmin.TimeSpanToString | GeoMarker.Frontiers/GeoMarker.Frontiers.Web/Models/RecordsProcessed.cs:32-39 | "Failed" exactly for a Failure record; "Processing" exactly for any other record when the flag is set and the span is not positive |
| RecordsAdmin.TotalsPartition | GeoMarker.Frontiers/GeoMarker.Frontiers.Web/Models/AdminViewModel.cs:27-40 | processed, processing and failed totals plus the rows in other statuses account for every row's Records exactly once |
| RecordsAdmin.TotalsBounded | GeoMarker.Frontiers/GeoMarker.Frontiers.Web/Models/AdminViewModel.cs:27-40 | with non-negative counts the three totals add to at most the total over all rows |
| RecordsAdmin.AppendRow | GeoMarker.Frontiers/GeoMarker.Frontiers.Web/Models/AdminViewModel.cs:27-40 | adding a row changes only the total of its own status, by its Records |
| RecordsAdmin.SumWhere | GeoMarker.Frontiers/GeoMarker.Frontiers.Web/Models/AdminViewModel.cs:27-40 | a status no row has sums to 0, and with non-negative counts the sum is never negative |
| RecordsAdmin.ProcessedRecords | GeoMarker.Frontiers/GeoMarker.Frontiers.Web/Models/AdminViewModel.cs:27-30 | with no Success row the total is 0; with non-negative counts it is never negative |
| RecordsAdmin.ProcessingRecords | GeoMarker.Frontiers/GeoMarker.Frontiers.Web/Models/AdminViewModel.cs:32-35 | with no Processing row the total is 0; with non-negative counts it is never negative |
| RecordsAdmin.FailedRecords | GeoMarker.Frontiers/GeoMarker.Frontiers.Web/Models/AdminViewModel.cs:37-40 | with no Failure row the total is 0; with non-negative counts it is never negative |
| RecordsAdmin.AllTypesComplete | GeoMarker.Frontiers/GeoMarker.Frontiers.Web/Models/DeGaussRequestType.cs:5-11 | the enumeration of request types lists every type |
| RecordsAdmin.OptionNames | GeoMarker.Frontiers/GeoMarker.Frontiers.Web/Models/AdminViewModel.cs:23 | the names kept are exactly the names of the listed types other than Composite and Unknown |
| RecordsAdmin.OfferedTypes | GeoMarker.Frontiers/GeoMarker.Frontiers.Web/Models/AdminViewModel.cs:23 | a type is offered exactly when it is neither Composite nor Unknown |
| RecordsAdmin.RequestTypeOptions | GeoMarker.Frontiers/GeoMarker.Frontiers.Web/Models/AdminViewModel.cs:23 | no option is named Composite or Unknown |
| Metadata.RecordCount | GeoMarker.Frontiers/GeoMarker.Frontiers.Web/Models/Services/MetadataService.cs:127-153 | the count is never negative; a positive Records is taken as given; otherwise it is the file's lines less the header, or 0 without a file or lines |
| Metadata.CsvRecordCount | GeoMarker.Frontiers/GeoMarker.Frontiers.Web/Models/Services/MetadataService.cs:134-152 | a CSV of a header and n rows written line by line counts as n records |
| Metadata.NewRecord | GeoMarker.Frontiers/GeoMarker.Frontiers.Web/Models/Services/MetadataService.cs:28-38 | the new row has the chosen key and count, and is Success when an end date is given and Processing otherwise |
| Metadata.AfterAdd | GeoMarker.Frontiers/GeoMarker.Frontiers.Web/Models/Services/MetadataService.cs:23-42 | a response outside 2xx adds nothing; otherwise exactly one row is added under the criteria's GUID, or a fresh one when that is empty, with the computed count, and every other row stays; a key already taken fails as SaveChanges does |
| Metadata.AfterComplete | GeoMarker.Frontiers/GeoMarker.Frontiers.Web/Models/Services/MetadataService.cs:48-66 | only an existing record with no completion date and a 2xx or missing response changes, to Success with the end date; every other record stays |
| Metadata.AfterFail | GeoMarker.Frontiers/GeoMarker.Frontiers.Web/Models/Services/MetadataService.cs:68-85 | an existing record becomes Failure with the end date whatever it was; every other record stays |
| Metadata.MetadataService.constructor | GeoMarker.Frontiers/GeoMarker.Frontiers.Web/Models/Services/MetadataService.cs:13-17 | the service works on the given database |
| Metadata.MetadataService.GetRecordCount | GeoMarker.Frontiers/GeoMarker.Frontiers.Web/Models/Services/MetadataService.cs:127-153 | the line-counting loop computes RecordCount |
| Metadata.MetadataService.AddRecordsProcessed | GeoMarker.Frontiers/GeoMarker.Frontiers.Web/Models/Services/MetadataService.cs:23-42 | the records become AfterAdd of the old ones (or stay, with the key error); the requests are untouched |
| Metadata.MetadataService.CompleteRecordsProcessed | GeoMarker.Frontiers/GeoMarker.Frontiers.Web/Models/Services/MetadataService.cs:48-66 | the records become AfterComplete of the old ones; the requests are untouched |
| Metadata.MetadataService.FailRecordsProcessed | GeoMarker.Frontiers/GeoMarker.Frontiers.Web/Models/Services/MetadataService.cs:68-85 | the records become AfterFail of the old ones; the requests are untouched |
| Metadata.CompleteOnce | GeoMarker.Frontiers/GeoMarker.Frontiers.Web/Models/Services/MetadataService.cs:54-59 | a record completed with a real end date is Success, and completing it again changes nothing |
| Metadata.FailIsFinal | GeoMarker.Frontiers/GeoMarker.Frontiers.Web/Models/Services/MetadataService.cs:73-79 | failing gives Failure whatever came before, and a record failed with a real end date is never completed afterwards |
| Metadata.FreshRecordAdded | GeoMarker.Frontiers/GeoMarker.Frontiers.Web/Models/Services/MetadataService.cs:25-37 | with no response and a fresh key the record is always added, Processing while it has no end date |
| Metadata.GetGeocodeUserRequests | GeoMarker.Frontiers/GeoMarker.Frontiers.Web/Models/Services/MetadataService.cs:161-180 | None exactly for an empty or null email or type; otherwise exactly the rows of the trimmed user that are Success and whose type or subtype has the name asked for |
| Metadata.EmailIsTrimmed | GeoMarker.Frontiers/GeoMarker.Frontiers.Web/Models/Services/MetadataService.cs:170 | white space around the email does not change the answer |
| Metadata.TrimIdempotent | GeoMarker.Frontiers/GeoMarker.Frontiers.Web/Models/Services/MetadataService.cs:170 | trimming twice is trimming once |
| Text.ToUpper | GeoMarker.Frontiers/GeoMarker.Frontiers.Web/Models/Validation/ValidateFileName.cs:28 | a result is never a lower-case ASCII letter: a lower-case letter becomes the upper-case letter at the same place in the alphabet, and every other character is left alone |
| Text.TrimStart | GeoMarker.Frontiers/GeoMarker.Frontiers.Web/Models/Services/MetadataService.cs:170 | cuts only white space off the front and stops at the first other character |
| Text.TrimEnd | GeoMarker.Frontiers/GeoMarker.Frontiers.Web/Models/Services/MetadataService.cs:170 | cuts only white space off the back and stops at the last other character |
| Text.Trim | GeoMarker.Frontiers/GeoMarker.Frontiers.Web/Models/Services/MetadataService.cs:170 | the string with white space cut off both ends, beginning and ending with a character that is not white space |
| Text.IndexOf | GeoMarker.Frontiers/GeoMarker.Frontiers.Core/Services/DeGaussCommandService.cs:157 | the first position of the character, -1 exactly when it is absent |
| Text.LastIndexOf | GeoMarker.Frontiers/GeoMarker.Frontiers.Web/Models/Services/GeoMarkerAPIRequestService.cs:289-290 | the last position of the character, -1 exactly when it is absent |
| Text.FileNameOf | GeoMarker.Frontiers/GeoMarker.Frontiers.Web/Models/Services/GeoMarkerAPIRequestService.cs:289-290 | the part of a path after its last '/': it holds no '/' and the path is a directory prefix ending in '/' followed by it |
| Text.Split | GeoMarker.Frontiers/GeoMarker.Frontiers.Core/Models/Request/DeGaussRequest/DeGaussRequestValidator.cs:115 | at least one field, none holding the separator |
| Text.JoinSplit | GeoMarker.Frontiers/GeoMarker.Frontiers.Core/Models/Request/DeGaussRequest/DeGaussRequestValidator.cs:115 | joining the fields of a split gives the string back |
| Text.SplitJoin | GeoMarker.Frontiers/GeoMarker.Frontiers.Core/Models/Request/DeGaussRequest/DeGaussRequestValidator.cs:115 | splitting a join of fields free of the separator gives the fields back |
| Text.ReadLine | GeoMarker.Frontiers/GeoMarker.Frontiers.Core/Models/Request/DeGaussRequest/DeGaussRequestValidator.cs:93 | null exactly at the end of the stream; otherwise a line with no line break and a strictly shorter rest |
| Text.FirstLine | GeoMarker.Frontiers/GeoMarker.Frontiers.Core/Models/Request/DeGaussRequest/DeGaussRequestValidator.cs:113-114 | the first line read, None exactly for an empty stream |
| Text.LinesOfTerminated | GeoMarker.Frontiers/GeoMarker.Frontiers.Core/Models/Request/DeGaussRequest/DeGaussRequestValidator.cs:91-97 | reading back "\n"-terminated lines gives exactly those lines |
| Text.CountLines | GeoMarker.Frontiers/GeoMarker.Frontiers.Core/Models/Request/DeGaussRequest/DeGaussRequestValidator.cs:89-99 | the counting loop returns the number of lines ReadLine yields |
| Text.ExtensionOf | GeoMarker.Frontiers/GeoMarker.Frontiers.Web/Models/Validation/ValidateFileName.cs:19 | the extension of "stem.ext" is ".ext" when ext is neither empty nor holds '.' or '/' |
| Text.GetExtension | GeoMarker.Frontiers/GeoMarker.Frontiers.Web/Models/Validation/ValidateFileName.cs:19 | a non-empty extension starts with '.' and holds no other '.' and no '/' |
| Text.ExtensionIsSuffix | GeoMarker.Frontiers/GeoMarker.Frontiers.Web/Models/Validation/ValidateFileName.cs:19 | a non-empty extension is the end of the path it was taken from |
| Text.GetFileNameWithoutExtension | GeoMarker.Frontiers/GeoMarker.Frontiers.Web/Models/Validation/ValidateFileName.cs:24 | the last path segment cut just before its last '.', or whole when it has none |
| Text.SpanOf | GeoMarker.Frontiers/GeoMarker.Frontiers.Core/Jobs/FileCleanupJob.cs:27 | the longest prefix of white space, or of digits |
| Text.TryParseInt32 | GeoMarker.Frontiers/GeoMarker.Frontiers.Core/Jobs/FileCleanupJob.cs:27 | a parsed value always fits in an int; which texts it accepts, and as what, is stated by TryParseMeaning |
| Text.TryParseMeaning | GeoMarker.Frontiers/GeoMarker.Frontiers.Core/Jobs/FileCleanupJob.cs:27 | int.TryParse accepts a text exactly when it is a numeral (leading white space, an optional '+' or '-', at least one digit, trailing white space, trailing NULs) whose value fits in an int, and then gives that value |
| Text.NumeralParses | GeoMarker.Frontiers/GeoMarker.Frontiers.Core/Jobs/FileCleanupJob.cs:27 | every numeral parses: to its value when that fits in an int, and to None otherwise |
| Text.ParsedIsNumeral | GeoMarker.Frontiers/GeoMarker.Frontiers.Core/Jobs/FileCleanupJob.cs:27 | every accepted text is a numeral whose value is the number parsed |
| Text.TryParseRefusals | GeoMarker.Frontiers/GeoMarker.Frontiers.Core/Jobs/FileCleanupJob.cs:27 | null, the empty text, a blank, a lone sign, a decimal point, a trailing letter and a double sign are all refused |
| Text.NatToString | GeoMarker.Frontiers/GeoMarker.Frontiers.Web/Models/RecordsProcessed.cs:38 | at least one digit, no leading zero, and the digits' value is the number |
| Text.IntToString | GeoMarker.Frontiers/GeoMarker.Frontiers.Web/Models/RecordsProcessed.cs:38 | starts with '-' exactly for a negative number; the rest is at least one digit, with no leading zero, and its value is the magnitude |
| Text.ParseFormatted | GeoMarker.Frontiers/GeoMarker.Frontiers.Core/Jobs/FileCleanupJob.cs:27 | int.TryParse reads the text of every int back as that int |
| RequestValidation.ExpectedFileSize | GeoMarker.Frontiers/GeoMarker.Frontiers.Core/Models/Request/DeGaussRequest/DeGaussRequestValidator.cs:13-25 | the limit is the configured size when it is positive and 25,000,000 otherwise; always positive |
| RequestValidation.RecordCountBelowMax | GeoMarker.Frontiers/GeoMarker.Frontiers.Core/Models/Request/DeGaussRequest/DeGaussRequestValidator.cs:87-100 | true exactly when the file has at most MAX_LINES + 1 = 301 lines |
| RequestValidation.RecordCountAboveMin | GeoMarker.Frontiers/GeoMarker.Frontiers.Core/Models/Request/DeGaussRequest/DeGaussRequestValidator.cs:102-108 | true exactly when the file has at least two lines |
| RequestValidation.AboveMinNeedsTwoLines | GeoMarker.Frontiers/GeoMarker.Frontiers.Core/Models/Request/DeGaussRequest/DeGaussRequestValidator.cs:102-108 | an empty file is refused, and a file that passes has at least two characters |
| RequestValidation.RowLimitBoundary | GeoMarker.Frontiers/GeoMarker.Frontiers.Tests/GeoMarker/Frontiers/Core/TestData/DeGaussRequestValidatorTestData.cs:22 | a header and 300 rows pass the row limit, a header and 301 rows do not |
| RequestValidation.HeaderFields | GeoMarker.Frontiers/GeoMarker.Frontiers.Core/Models/Request/DeGaussRequest/DeGaussRequestValidator.cs:113-115 | the comma-split fields of the first line, None exactly for an empty file |
| RequestValidation.HeaderOfCsv | GeoMarker.Frontiers/GeoMarker.Frontiers.Core/Models/Request/DeGaussRequest/DeGaussRequestValidator.cs:113-115 | a file whose first line is a comma-join of plain fields has exactly those header fields |
| RequestValidation.DistinctCount | GeoMarker.Frontiers/GeoMarker.Frontiers.Core/Models/Request/DeGaussRequest/DeGaussRequestValidator.cs:117 | Distinct().Count() equals Count() exactly when no field repeats |
| RequestValidation.RecordHeaderHasNoDuplicates | GeoMarker.Frontiers/GeoMarker.Frontiers.Core/Models/Request/DeGaussRequest/DeGaussRequestValidator.cs:109-119 | true exactly when the file has a header and no two of its fields are equal under exact comparison |
| RequestValidation.GeocodedExcludesGeocode | GeoMarker.Frontiers/GeoMarker.Frontiers.Core/Models/Request/DeGaussRequest/DeGaussRequestValidator.cs:121-160 | no file passes both the Geocoded schema and the Geocode rule that forbids the geocoder's columns |
| RequestValidation.GeocodeSchemaExamples | GeoMarker.Frontiers/GeoMarker.Frontiers.Core/Models/Request/DeGaussRequest/DeGaussRequestValidator.cs:121-160 | ID matches in any case while address must be lower case; a geocoder column is refused in any case; lat and lon match in any case |
| RequestValidation.SizeBoundary | GeoMarker.Frontiers/GeoMarker.Frontiers.Core/Models/Request/DeGaussRequest/DeGaussRequestValidator.cs:162-165 | a file of exactly the limit is refused and one byte less is accepted |
| RequestValidation.MaxFileSize | GeoMarker.Frontiers/GeoMarker.Frontiers.Core/Models/Request/DeGaussRequest/DeGaussRequestValidator.cs:162-165 | a file passes exactly when its length is strictly below the configured limit, or below 25,000,000 bytes when the configured limit is not positive |
| RequestValidation.NamePatternMeaning | GeoMarker.Frontiers/GeoMarker.Frontiers.Core/Models/Request/DeGaussRequest/DeGaussRequestValidator.cs:171-172 | the stem matches exactly when every character is a letter, digit, '-' or '_', except a single final line feed |
| RequestValidation.StemAccepted | GeoMarker.Frontiers/GeoMarker.Frontiers.Core/Models/Request/DeGaussRequest/DeGaussRequestValidator.cs:167-174 | a stem of name characters passes whatever extension follows |
| RequestValidation.StemRefused | GeoMarker.Frontiers/GeoMarker.Frontiers.Core/Models/Request/DeGaussRequest/DeGaussRequestValidator.cs:167-174 | a stem holding one character outside the class and not ending in a line feed never passes |
| RequestValidation.OutsideClass | GeoMarker.Frontiers/GeoMarker.Frontiers.Core/Models/Request/DeGaussRequest/DeGaussRequestValidator.cs:171-172 | one character outside the class, with no final line feed, fails the pattern |
| RequestValidation.StemOf | GeoMarker.Frontiers/GeoMarker.Frontiers.Core/Models/Request/DeGaussRequest/DeGaussRequestValidator.cs:170 | the stem of "stem.ext" is stem when neither part holds '.' or '/' |
| RequestValidation.ValidateFileName | GeoMarker.Frontiers/GeoMarker.Frontiers.Core/Models/Request/DeGaussRequest/DeGaussRequestValidator.cs:167-174 | a name passes exactly when every character of its stem is a letter, a digit, '-' or '_', except that the stem may end in one line feed |
| RequestValidation.ReservedCaught | GeoMarker.Frontiers/GeoMarker.Frontiers.Core/Models/Request/DeGaussRequest/DeGaussRequestValidator.cs:69-84 | a reserved word anywhere in the name, in any case, is refused |
| RequestValidation.ShortNameFree | GeoMarker.Frontiers/GeoMarker.Frontiers.Core/Models/Request/DeGaussRequest/DeGaussRequestValidator.cs:69-84 | a name shorter than the reserved word passes its rule |
| RequestValidation.BaseAccepts | GeoMarker.Frontiers/GeoMarker.Frontiers.Core/Models/Request/DeGaussRequest/DeGaussRequestValidator.cs:30-41 | the Base set accepts exactly a text/csv file of at least two lines whose header fields are distinct |
| RequestValidation.BaseFailureMeaning | GeoMarker.Frontiers/GeoMarker.Frontiers.Core/Models/Request/DeGaussRequest/DeGaussRequestValidator.cs:30-41 | each failure names a rule the file really breaks: FileMissing exactly for a null file, FileEmpty for fewer than two lines, DuplicateHeaders for a repeated field, a refused content type for one that is not text/csv |
| RequestValidation.BaseOnCsv | GeoMarker.Frontiers/GeoMarker.Frontiers.Core/Models/Request/DeGaussRequest/DeGaussRequestValidator.cs:30-41 | on a text/csv file of a header and rows the Base set decides on the header fields alone |
| RequestValidation.ValidateBase | GeoMarker.Frontiers/GeoMarker.Frontiers.Core/Models/Request/DeGaussRequest/DeGaussRequestValidator.cs:30-41 | FileMissing exactly for a null file, ContentTypeMissing exactly for a file without a content type; a pass means a listed content type, at least two lines and distinct header fields |
| RequestValidation.RecordSchemaGeocoded | GeoMarker.Frontiers/GeoMarker.Frontiers.Core/Models/Request/DeGaussRequest/DeGaussRequestValidator.cs:121-133 | true exactly when the file has a first line whose comma-split fields hold lat and lon in any case |
| RequestValidation.RecordSchemaGetGeocodeHasColumns | GeoMarker.Frontiers/GeoMarker.Frontiers.Core/Models/Request/DeGaussRequest/DeGaussRequestValidator.cs:134-146 | true exactly when the file has a first line whose comma-split fields hold ID in any case and address exactly |
| RequestValidation.RecordSchemaGetGeocodeDoesNotHaveColumns | GeoMarker.Frontiers/GeoMarker.Frontiers.Core/Models/Request/DeGaussRequest/DeGaussRequestValidator.cs:147-160 | true exactly when the file has a first line whose comma-split fields hold none of lat, lon, score and precision, in any case |
| RequestValidation.ValidFileTestCase | GeoMarker.Frontiers/GeoMarker.Frontiers.Tests/GeoMarker/Frontiers/Core/TestData/DeGaussRequestValidatorTestData.cs:13 | a text/csv file with header ID,address and rows passes the Base set |
| RequestValidation.EmptyFileTestCase | GeoMarker.Frontiers/GeoMarker.Frontiers.Tests/GeoMarker/Frontiers/Core/TestData/DeGaussRequestValidatorTestData.cs:16-19 | an empty file fails as empty and a null file as missing |
| RequestValidation.DuplicateHeaderTestCase | GeoMarker.Frontiers/GeoMarker.Frontiers.Tests/GeoMarker/Frontiers/Core/TestData/DeGaussRequestValidatorTestData.cs:25 | header ID,address,address fails for duplicate headers |
| CompositeValidation.ValidateAddress | GeoMarker.Frontiers/GeoMarker.Frontiers.Core/Models/Request/DeGaussJsonRequest/DeGaussAddressRequestValidator.cs:12-18 | an element passes exactly when it is null (SetValidator does not run the child validator on a null element) or has an Id and an Address that are neither null nor blank; IdEmpty exactly for a present element with a missing or blank Id |
| CompositeValidation.FirstInvalid | GeoMarker.Frontiers/GeoMarker.Frontiers.Core/Models/Request/DeGaussCompositeJsonRequest/DeGaussCompositeJsonRequestValidator.cs:21 | None exactly when every address passes; otherwise the first failing address, its index and its failure |
| CompositeValidation.SiteNotBlank | GeoMarker.Frontiers/GeoMarker.Frontiers.Core/Models/Request/DeGaussDriveTimeRequest/DeGaussDrivetimeRequestValidator.cs:9-86 | every site code is non-empty and starts with a lower-case letter |
| CompositeValidation.ValidateAccepts | GeoMarker.Frontiers/GeoMarker.Frontiers.Core/Models/Request/DeGaussCompositeJsonRequest/DeGaussCompositeJsonRequestValidator.cs:13-34 | the validator accepts exactly the requests with 1 to 300 addresses, each null or well-formed, a listed site when drivetime is selected and a listed year when censusblockgroup is selected |
| CompositeValidation.NullElementsSkipped | GeoMarker.Frontiers/GeoMarker.Frontiers.Core/Models/Request/DeGaussCompositeJsonRequest/DeGaussCompositeJsonRequestValidator.cs:19-22 | a list of 1 to 300 null elements passes the address rules, and with no service selected the request is accepted |
| CompositeValidation.TooManyStops | GeoMarker.Frontiers/GeoMarker.Frontiers.Core/Models/Request/DeGaussCompositeJsonRequest/DeGaussCompositeJsonRequestValidator.cs:18 | over 300 addresses the count rule stops validation whatever the addresses hold |
| CompositeValidation.ServicesGateSiteAndYear | GeoMarker.Frontiers/GeoMarker.Frontiers.Tests/GeoMarker/Frontiers/Core/TestData/Json/DeGaussCompositeJsonRequestValidatorTestData.cs:8 | without drivetime and censusblockgroup, site and year are never looked at |
| CompositeValidation.YearOnlyForCensusBlockGroup | GeoMarker.Frontiers/GeoMarker.Frontiers.Core/Models/Request/DeGaussCompositeJsonRequest/DeGaussCompositeJsonRequestValidator.cs:30-34 | without censusblockgroup the year is never looked at |
| CompositeValidation.AddressFailureIsFirst | GeoMarker.Frontiers/GeoMarker.Frontiers.Core/Models/Request/DeGaussCompositeJsonRequest/DeGaussCompositeJsonRequestValidator.cs:19-22 | an address failure reported is that of the first bad address |
| CompositeValidation.CompositeTestCases | GeoMarker.Frontiers/GeoMarker.Frontiers.Tests/GeoMarker/Frontiers/Core/TestData/Json/DeGaussCompositeJsonRequestValidatorTestData.cs:7-38 | the validator's test cases: valid with and without services; empty and null lists; a missing or unknown site; a missing or unknown year |
| CompositeValidation.BlankFieldTestCases | GeoMarker.Frontiers/GeoMarker.Frontiers.Tests/GeoMarker/Frontiers/Core/TestData/Json/DeGaussCompositeJsonRequestValidatorTestData.cs:7-38 | a blank Id and a blank Address in the first entry are each reported as that entry's failure |
| CompositeValidation.Validate | GeoMarker.Frontiers/GeoMarker.Frontiers.Core/Models/Request/DeGaussCompositeJsonRequest/DeGaussCompositeJsonRequestValidator.cs:13-34 | a null list, an empty list and more than 300 addresses are each reported exactly in their case; an address failure names an index in range with that address's failure; a site failure needs drivetime selected and a year failure censusblockgroup |
| FileNameValidation.SuccessIff | GeoMarker.Frontiers/GeoMarker.Frontiers.Web/Models/Validation/ValidateFileName.cs:9-55 | Success exactly when the form and its file name are present, the extension is .csv in any case, the stem matches the pattern and no selected service's reserved word is in the name |
| FileNameValidation.IsValid | GeoMarker.Frontiers/GeoMarker.Frontiers.Web/Models/Validation/ValidateFileName.cs:9-55 | FileRequired exactly without a form, FileNameRequired exactly without a file name, the extension error exactly for a non-.csv extension; a bad name fails the pattern and a reserved-word refusal passed it |
| FileNameValidation.ReservedCheck | GeoMarker.Frontiers/GeoMarker.Frontiers.Web/Models/Validation/ValidateFileName.cs:28-35 | the reserved-word check passes or names a reserved word; it never gives another failure |
| FileNameValidation.ExtensionFirst | GeoMarker.Frontiers/GeoMarker.Frontiers.Web/Models/Validation/ValidateFileName.cs:19-23 | a wrong extension is reported whatever the rest of the name |
| FileNameValidation.PatternBeforeReserved | GeoMarker.Frontiers/GeoMarker.Frontiers.Web/Models/Validation/ValidateFileName.cs:24-42 | a stem failing the pattern is refused before any reserved word is looked at |
| FileNameValidation.ReservedOnlyWhenSelected | GeoMarker.Frontiers/GeoMarker.Frontiers.Web/Models/Validation/ValidateFileName.cs:28-35 | with none of the four services selected the reserved words play no part |
| FileNameValidation.ReservedMeaning | GeoMarker.Frontiers/GeoMarker.Frontiers.Web/Models/Validation/ValidateFileName.cs:28-35 | a reserved-word refusal names a selected service whose word is in the name, after the extension and pattern checks passed |
| FileNameValidation.AgreesWithRequestValidator | GeoMarker.Frontiers/GeoMarker.Frontiers.Web/Models/Validation/ValidateFileName.cs:24-36 | a name the attribute accepts also passes the validator's file-name rule and each selected service's reserved-name rule |
| FileNameValidation.PlainNameAccepted | GeoMarker.Frontiers/GeoMarker.Frontiers.Web/Models/Validation/ValidateFileName.cs:19-36 | a stem of name characters with .csv and no selected reserved word is accepted |
| Repository.Chain | GeoMarker.Frontiers/GeoMarker.Frontiers.Web/Models/Services/UserRequestRepository.cs:43-57 | the GUIDs DeleteRequestChain visits: empty exactly for an empty or missing start GUID; it begins at the start, holds only stored non-empty GUIDs, visits none twice, and each node's NextRequest is the next visited GUID |
| Repository.Tail | GeoMarker.Frontiers/GeoMarker.Frontiers.Web/Models/Services/UserRequestRepository.cs:47-57 | where the walk stops: an empty link, a GUID with no row, or a node already visited; it is the NextRequest of the last visited node |
| Repository.ClosedNoSelfLoop | GeoMarker.Frontiers/GeoMarker.Frontiers.Web/Models/Services/UserRequestRepository.cs:104-114 | a node on a closed chain never names itself as its NextRequest |
| Repository.RemovalCutsChain | GeoMarker.Frontiers/GeoMarker.Frontiers.Web/Models/Services/UserRequestRepository.cs:43-57 | removing a node that the walk reaches at position k cuts the chain just before it, and the walk then stops at that GUID |
| Repository.ClosedNotOnOwnTail | GeoMarker.Frontiers/GeoMarker.Frontiers.Web/Models/Services/UserRequestRepository.cs:104-114 | on a closed chain, a node is not reached again from its own successor |
| Repository.LinksDecideChains | GeoMarker.Frontiers/GeoMarker.Frontiers.Web/Models/Services/UserRequestRepository.cs:43-57 | stores that agree on the keys and every NextRequest have the same chains and the same stopping GUIDs, whatever the other columns hold |
| Repository.SameLinksKeepClosed | GeoMarker.Frontiers/GeoMarker.Frontiers.Web/Models/Services/UserRequestRepository.cs:104-114 | changing columns other than NextRequest keeps every chain closed |
| Repository.RemovalKeepsClosed | GeoMarker.Frontiers/GeoMarker.Frontiers.Web/Models/Services/UserRequestRepository.cs:53-55 | deleting any set of rows keeps every remaining chain closed |
| Repository.AddingUnreferenced | GeoMarker.Frontiers/GeoMarker.Frontiers.Web/Models/Services/UserRequestRepository.cs:24-37 | inserting a row under a GUID no row links to leaves every other walk unchanged |
| Repository.AddingKeepsClosed | GeoMarker.Frontiers/GeoMarker.Frontiers.Web/Models/Services/UserRequestRepository.cs:24-37 | inserting an unreferenced row whose own link leads to a closed chain keeps every chain closed |
| Repository.AddingEmptyKey | GeoMarker.Frontiers/GeoMarker.Frontiers.Web/Models/Services/UserRequestRepository.cs:45-51 | a row stored under the empty GUID changes no walk, since the walk never follows an empty link |
| Repository.EmptyKeyKeepsClosed | GeoMarker.Frontiers/GeoMarker.Frontiers.Web/Models/Services/UserRequestRepository.cs:45-51 | a row under the empty GUID keeps every chain closed |
| Repository.ChainPrepend | GeoMarker.Frontiers/GeoMarker.Frontiers.Web/Models/Services/UserRequestRepository.cs:43-57 | a new head node's chain is its own GUID followed by the chain of its NextRequest |
| Repository.TailIsReached | GeoMarker.Frontiers/GeoMarker.Frontiers.Web/Models/Services/UserRequestRepository.cs:43-57 | from a stored start, the stopping GUID is the NextRequest of some stored row |
| Repository.Stamped | GeoMarker.Frontiers/GeoMarker.Frontiers.Web/Models/Services/UserRequestRepository.cs:111-113 | stamping a list of GUIDs keeps the set of keys |
| Repository.StampedRows | GeoMarker.Frontiers/GeoMarker.Frontiers.Web/Models/Services/UserRequestRepository.cs:111-113 | after stamping, each listed stored row has the new status and is otherwise unchanged, and every unlisted row is untouched |
| Repository.StampedKeepsLinks | GeoMarker.Frontiers/GeoMarker.Frontiers.Web/Models/Services/UserRequestRepository.cs:111-113 | stamping a status never changes a key or a NextRequest |
| Repository.Without | GeoMarker.Frontiers/GeoMarker.Frontiers.Web/Models/Services/UserRequestRepository.cs:53-55 | the store less a list of GUIDs: exactly the rows not listed, each unchanged |
| Repository.Rows | GeoMarker.Frontiers/GeoMarker.Frontiers.Web/Models/Services/UserRequestRepository.cs:53-55 | the stored rows of a list of GUIDs, in the list's order |
| Repository.GetIncompleteUserRequests | GeoMarker.Frontiers/GeoMarker.Frontiers.Web/Models/Services/UserRequestRepository.cs:128-131 | exactly the non-composite rows that are Processing or Queued, unchanged |
| Repository.GetIncompleteCompositeUserRequests | GeoMarker.Frontiers/GeoMarker.Frontiers.Web/Models/Services/UserRequestRepository.cs:82-85 | exactly the composite nodes that are Requested, Queued or Processing, unchanged |
| Repository.GetBatchUserRequests | GeoMarker.Frontiers/GeoMarker.Frontiers.Web/Models/Services/UserRequestRepository.cs:63-66 | exactly the user's rows that are neither single-address nor composite |
| Repository.GetCompositeUserRequests | GeoMarker.Frontiers/GeoMarker.Frontiers.Web/Models/Services/UserRequestRepository.cs:77 | exactly the user's composite nodes |
| Repository.GetUserRequest | GeoMarker.Frontiers/GeoMarker.Frontiers.Web/Models/Services/UserRequestRepository.cs:90 | the stored row of a GUID, found exactly when it exists and is not single-address |
| Repository.GetBatchUserRequest | GeoMarker.Frontiers/GeoMarker.Frontiers.Web/Models/Services/UserRequestRepository.cs:95-96 | the row of a GUID, found exactly when it exists, is the user's, and is not single-address |
| Repository.IncompleteSplit | GeoMarker.Frontiers/GeoMarker.Frontiers.Web/Models/Services/UserRequestRepository.cs:80-131 | a Processing or Queued request is returned by exactly one of the two incomplete queries; a Requested one only by the composite query, and only when it is composite |
| Repository.UserRequestRepository.constructor | GeoMarker.Frontiers/GeoMarker.Frontiers.Web/Models/Services/UserRequestRepository.cs:18-22 | the repository works on the given context |
| Repository.UserRequestRepository.AddUserRequest | GeoMarker.Frontiers/GeoMarker.Frontiers.Web/Models/Services/UserRequestRepository.cs:24-37 | insert under a free GUID and return it; a taken key is refused and the store is unchanged |
| Repository.UserRequestRepository.DeleteRequestChain | GeoMarker.Frontiers/GeoMarker.Frontiers.Web/Models/Services/UserRequestRepository.cs:39-59 | returns the rows of the chain in walk order and leaves the store without exactly those rows |
| Repository.UserRequestRepository.SaveStatus | GeoMarker.Frontiers/GeoMarker.Frontiers.Web/Models/Services/UserRequestRepository.cs:111-114 | writes the status on one row and returns that row's NextRequest |
| Repository.UserRequestRepository.ApplyStatusToRequestChain | GeoMarker.Frontiers/GeoMarker.Frontiers.Web/Models/Services/UserRequestRepository.cs:99-122 | on a closed chain, the new store is the old one with the status stamped on every chain node |
| Repository.MissingStartDoesNothing | GeoMarker.Frontiers/GeoMarker.Frontiers.Web/Models/Services/UserRequestRepository.cs:45-51 | an empty or missing start GUID deletes nothing, returns nothing and stamps nothing |
| Repository.WalksKeepClosed | GeoMarker.Frontiers/GeoMarker.Frontiers.Web/Models/Services/UserRequestRepository.cs:39-122 | deleting or stamping a chain keeps every chain closed, and stamping leaves every chain as it was |
| ApiRequests.ResultPrefix | GeoMarker.Frontiers/GeoMarker.Frontiers.Web/Models/Services/GeoMarkerAPIRequestService.cs:449-470 | each of the four services has a non-empty output prefix, and every other type has none |
| ApiRequests.PrefixesDistinct | GeoMarker.Frontiers/GeoMarker.Frontiers.Web/Models/Services/GeoMarkerAPIRequestService.cs:451-469 | no two services share an output prefix |
| ApiRequests.GetResultStatus | GeoMarker.Frontiers/GeoMarker.Frontiers.Web/Models/Services/GeoMarkerAPIRequestService.cs:442-489 | the exception is rethrown exactly when a service's client fails with a non-client error; a client error reads as Unknown for the polled GUID with no prefix; a type with no client gets the default Processing response with no prefix; otherwise the reply comes back with the service's prefix |
| ApiRequests.GetOutputFile | GeoMarker.Frontiers/GeoMarker.Frontiers.Web/Models/Services/GeoMarkerAPIRequestService.cs:44-87 | a composite node is fetched from its subtype's service, any other request from its own type's; an empty subtype throws, and a type with no client gives a null file |
| ApiRequests.StartResult | GeoMarker.Frontiers/GeoMarker.Frontiers.Web/Models/Services/GeoMarkerAPIRequestService.cs:361-423 | a type with no client gets a default response with the not-supported message; for a service, the start fails exactly when its client throws |
| ApiRequests.SubmitRequest | GeoMarker.Frontiers/GeoMarker.Frontiers.Web/Models/Services/GeoMarkerAPIRequestService.cs:243-260 | a request is accepted exactly when its service returns a non-null response; an empty subtype and every exception read as refused; a type with no client reads as accepted |
| ApiRequests.OutputFileName | GeoMarker.Frontiers/GeoMarker.Frontiers.Web/Models/Services/GeoMarkerAPIRequestService.cs:123 | the output path "tmp/{guid}/{prefix}{input}"; when prefix and input hold no '/', the name after the last '/' is prefix plus input |
| ApiRequests.FileNameAfterSlash | GeoMarker.Frontiers/GeoMarker.Frontiers.Web/Models/Services/GeoMarkerAPIRequestService.cs:289-290 | the part of a path after its last '/' is the last path component |
| ApiRequests.BatchStep | GeoMarker.Frontiers/GeoMarker.Frontiers.Web/Models/Services/GeoMarkerAPIRequestService.cs:94-143 | one poll of the batch sweep either edits rows without changing a link and drops nothing, or deletes the polled row and drops exactly it |
| ApiRequests.ChainedRequest | GeoMarker.Frontiers/GeoMarker.Frontiers.Web/Models/Services/GeoMarkerAPIRequestService.cs:279-287 | when the next GUID names no row, the hand-on does nothing |
| ApiRequests.Advance | GeoMarker.Frontiers/GeoMarker.Frontiers.Web/Models/Services/GeoMarkerAPIRequestService.cs:191-195 | a node with no next request hands nothing on |
| ApiRequests.EditKeepsLinks | GeoMarker.Frontiers/GeoMarker.Frontiers.Web/Models/Services/GeoMarkerAPIRequestService.cs:140-142 | writing back an edited row under its own GUID, with its own link, changes no link |
| ApiRequests.ChainedRequestKeepsLinks | GeoMarker.Frontiers/GeoMarker.Frontiers.Web/Models/Services/GeoMarkerAPIRequestService.cs:272-349 | handing on to the next node edits rows but never links |
| ApiRequests.AdvanceKeepsLinks | GeoMarker.Frontiers/GeoMarker.Frontiers.Web/Models/Services/GeoMarkerAPIRequestService.cs:196-206 | the hand-on after a success edits rows but never links |
| ApiRequests.BatchRunStep | GeoMarker.Frontiers/GeoMarker.Frontiers.Web/Models/Services/GeoMarkerAPIRequestService.cs:94-144 | a batch sweep is its first poll followed by the sweep of the rest of the list, which is still all stored and without repeats |
| ApiRequests.RemoveFirst | GeoMarker.Frontiers/GeoMarker.Frontiers.Web/Models/Services/GeoMarkerAPIRequestService.cs:145-146 | List.Remove leaves a list without the element as it is, and otherwise makes it one shorter |
| ApiRequests.Keep | GeoMarker.Frontiers/GeoMarker.Frontiers.Web/Models/Services/GeoMarkerAPIRequestService.cs:145-146 | the listed GUIDs not dropped, in order: an element is kept exactly when it is listed and not dropped |
| ApiRequests.GeoMarkerApiRequestService.constructor | GeoMarker.Frontiers/GeoMarker.Frontiers.Web/Models/Services/GeoMarkerAPIRequestService.cs:25-42 | the service, its repository and its metadata service share one context |
| ApiRequests.GeoMarkerApiRequestService.InvokeStartGetAsync | GeoMarker.Frontiers/GeoMarker.Frontiers.Web/Models/Services/GeoMarkerAPIRequestService.cs:351-431 | returns the service's start answer; a composite start that throws first deletes the chain from the given GUID, and nothing else changes |
| ApiRequests.GeoMarkerApiRequestService.RefreshUserRequest | GeoMarker.Frontiers/GeoMarker.Frontiers.Web/Models/Services/GeoMarkerAPIRequestService.cs:94-143 | one pass of the batch loop leaves exactly the tables the batch step describes; an exception saves nothing |
| ApiRequests.GeoMarkerApiRequestService.RefreshUserRequests | GeoMarker.Frontiers/GeoMarker.Frontiers.Web/Models/Services/GeoMarkerAPIRequestService.cs:89-153 | the tables after the loop are those of the batch sweep; without an exception the list loses the removed requests; with one it is unchanged |
| ApiRequests.GeoMarkerApiRequestService.ProcessChainedRequest | GeoMarker.Frontiers/GeoMarker.Frontiers.Web/Models/Services/GeoMarkerAPIRequestService.cs:272-349 | the tables after the hand-on are those ChainedRequest describes; an exception saves nothing |
| ApiRequests.GeoMarkerApiRequestService.AdvanceChain | GeoMarker.Frontiers/GeoMarker.Frontiers.Web/Models/Services/GeoMarkerAPIRequestService.cs:191-207 | the tables after the success branch's hand-on are those Advance describes; an exception saves nothing |
| ApiRequests.GeoMarkerApiRequestService.FailChain | GeoMarker.Frontiers/GeoMarker.Frontiers.Web/Models/Services/GeoMarkerAPIRequestService.cs:214-224 | a non-success end saves the node's completion time, stamps the status on its whole chain and fails its metrics record |
| ApiRequests.GeoMarkerApiRequestService.RefreshCompositeRequest | GeoMarker.Frontiers/GeoMarker.Frontiers.Web/Models/Services/GeoMarkerAPIRequestService.cs:161-233 | one pass of the composite loop leaves exactly the tables the composite step describes; an exception saves nothing |
| ApiRequests.GeoMarkerApiRequestService.RefreshCompositeRequests | GeoMarker.Frontiers/GeoMarker.Frontiers.Web/Models/Services/GeoMarkerAPIRequestService.cs:155-242 | the tables after the loop are those of the composite sweep, and every chain stays closed; the list loses the deleted nodes exactly when no exception occurs |
| ApiRequests.RemoveAll | GeoMarker.Frontiers/GeoMarker.Frontiers.Web/Models/Services/GeoMarkerAPIRequestService.cs:234-235 | the loop that removes each dropped GUID from the caller's list, one first occurrence at a time |
| ApiRequests.GuidsOfChain | GeoMarker.Frontiers/GeoMarker.Frontiers.Web/Models/Services/GeoMarkerAPIRequestService.cs:177 | the GUIDs of the rows DeleteRequestChain returns are the chain it walked |
| ApiRequests.RemoveEachIsKeep | GeoMarker.Frontiers/GeoMarker.Frontiers.Web/Models/Services/GeoMarkerAPIRequestService.cs:234-235 | on a list without repeats, removing each dropped GUID in turn keeps exactly the others, in order |
| ApiRequests.GuidsOf | GeoMarker.Frontiers/GeoMarker.Frontiers.Web/Models/Services/GeoMarkerAPIRequestService.cs:177 | the GUIDs of a list of rows, position by position |
| ApiRequests.CompositeStepKeepsClosed | GeoMarker.Frontiers/GeoMarker.Frontiers.Web/Models/Services/GeoMarkerAPIRequestService.cs:161-233 | one composite poll either edits rows without changing a link and drops nothing, or deletes the polled node's chain and drops exactly its GUIDs; every chain stays closed |
| ApiRequests.BatchRunDrops | GeoMarker.Frontiers/GeoMarker.Frontiers.Web/Models/Services/GeoMarkerAPIRequestService.cs:94-146 | the GUIDs a batch sweep drops are listed ones, and the rows it deleted are exactly those |
| ApiRequests.CompositeRunDrops | GeoMarker.Frontiers/GeoMarker.Frontiers.Web/Models/Services/GeoMarkerAPIRequestService.cs:161-235 | the GUIDs a composite sweep drops were stored rows, and the rows it deleted are exactly those |
| ApiRequests.CompositeStepDrops | GeoMarker.Frontiers/GeoMarker.Frontiers.Web/Models/Services/GeoMarkerAPIRequestService.cs:175-179 | one composite poll deletes exactly the stored GUIDs it drops, and keeps every chain closed |
| ApiRequests.BatchListFollowsStore | GeoMarker.Frontiers/GeoMarker.Frontiers.Web/Models/Services/GeoMarkerAPIRequestService.cs:105-146 | after a batch sweep without an exception, the list holds, in order, exactly the listed requests still stored |
| ApiRequests.CompositeListFollowsStore | GeoMarker.Frontiers/GeoMarker.Frontiers.Web/Models/Services/GeoMarkerAPIRequestService.cs:175-235 | after a composite sweep without an exception, the list holds, in order, exactly the listed nodes still stored |
| ApiRequests.BatchPollWritesAnswer | GeoMarker.Frontiers/GeoMarker.Frontiers.Web/Models/Services/GeoMarkerAPIRequestService.cs:113-143 | in the batch sweep an answer other than Removed is written to the polled row and nowhere else; an unchanged answer changes nothing; a new final answer also sets the completion time; only Success and Failure touch the metrics |
| ApiRequests.BatchPollFinishes | GeoMarker.Frontiers/GeoMarker.Frontiers.Web/Models/Services/GeoMarkerAPIRequestService.cs:115-136 | a new Success stores "tmp/{guid}/{prefix}{input}" with the service's prefix and completes the metrics record of the answer's GUID; a new Failure fails the request's own record |
| ApiRequests.BatchPollRemoves | GeoMarker.Frontiers/GeoMarker.Frontiers.Web/Models/Services/GeoMarkerAPIRequestService.cs:105-111 | a Removed answer deletes the polled row and drops it from the list |
| ApiRequests.BatchOddAnswers | GeoMarker.Frontiers/GeoMarker.Frontiers.Web/Models/Services/GeoMarkerAPIRequestService.cs:473-482 | a client error finishes the request as Unknown with its completion time and no metrics change; a type with no service reads as Processing |
| ApiRequests.CompositeWaitingSkipped | GeoMarker.Frontiers/GeoMarker.Frontiers.Web/Models/Services/GeoMarkerAPIRequestService.cs:169-173 | a node still Requested, or finished without a completion time, is left as it is unless the poll itself throws |
| ApiRequests.CompositeFailureCascades | GeoMarker.Frontiers/GeoMarker.Frontiers.Web/Models/Services/GeoMarkerAPIRequestService.cs:183-226 | a new final answer other than Success is stamped on every node of the chain from the polled one; the other rows stay alone; the node gets its completion time; its metrics record fails |
| ApiRequests.ChainedRequestHandsOn | GeoMarker.Frontiers/GeoMarker.Frontiers.Web/Models/Services/GeoMarkerAPIRequestService.cs:272-326 | on an existing next node: the finished node is written as it is; the next takes the output's file name as input and gets a Processing metrics record; it is Processing when the service accepts it, otherwise it and its whole chain are Failure |
| ApiRequests.HandedOnAccepted | GeoMarker.Frontiers/GeoMarker.Frontiers.Web/Models/Services/GeoMarkerAPIRequestService.cs:289-319 | an accepted hand-on writes the finished node and makes the next node Processing with the new input name |
| ApiRequests.HandedOnRefused | GeoMarker.Frontiers/GeoMarker.Frontiers.Web/Models/Services/GeoMarkerAPIRequestService.cs:289-326 | a refused hand-on fails every node of the next node's chain and keeps the finished node's edits |
| ApiRequests.FailedChainRows | GeoMarker.Frontiers/GeoMarker.Frontiers.Web/Models/Services/GeoMarkerAPIRequestService.cs:321-326 | after a refused hand-on, the finished node and the next node keep their edits, and every node of the next node's chain is Failure |
| ApiRequests.SucceededHandsOn | GeoMarker.Frontiers/GeoMarker.Frontiers.Web/Models/Services/GeoMarkerAPIRequestService.cs:187-213 | a success whose next node is still Requested and whose output can be fetched saves the node as Success with its completion time and output path; the next node's input is the output's file name, and it is Processing or, with its chain, Failure |
| ApiRequests.CompositeStepSucceeds | GeoMarker.Frontiers/GeoMarker.Frontiers.Web/Models/Services/GeoMarkerAPIRequestService.cs:181-213 | a composite node polled with a new Success goes through the success branch |
| ApiRequests.CompositeStep | GeoMarker.Frontiers/GeoMarker.Frontiers.Web/Models/Services/GeoMarkerAPIRequestService.cs:161-233 | a GUID no longer stored is passed over with nothing changed; a node without a subtype aborts the sweep, as Enum.Parse throws |
| ApiRequests.CompositeAnswer | GeoMarker.Frontiers/GeoMarker.Frontiers.Web/Models/Services/GeoMarkerAPIRequestService.cs:175-226 | an unchanged answer other than Removed changes nothing; only Removed drops GUIDs, and it drops exactly the chain from the polled node |
| ApiRequests.Succeeded | GeoMarker.Frontiers/GeoMarker.Frontiers.Web/Models/Services/GeoMarkerAPIRequestService.cs:187-213 | the success branch drops nothing and leaves the node stored as Success with its completion time |
| ApiRequests.BatchRun | GeoMarker.Frontiers/GeoMarker.Frontiers.Web/Models/Services/GeoMarkerAPIRequestService.cs:94-146 | the batch sweep only ever adds to the GUIDs already dropped |
| ApiRequests.CompositeRun | GeoMarker.Frontiers/GeoMarker.Frontiers.Web/Models/Services/GeoMarkerAPIRequestService.cs:161-235 | the composite sweep only ever adds to the GUIDs already dropped |
| Home.IndexRoute | GeoMarker.Frontiers/GeoMarker.Frontiers.Web/Controllers/HomeController.cs:75-97 | an invalid model shows the form again; no type gives the no-type message; a missing access token gives the general error; exactly one type takes the single path and more than one the composite path, each case an if-and-only-if |
| Home.AllValues | GeoMarker.Frontiers/GeoMarker.Frontiers.Web/Controllers/HomeController.cs:308-312 | every value of every error appears in the joined list of values |
| Home.MarshallProblemDetailsToString | GeoMarker.Frontiers/GeoMarker.Frontiers.Web/Controllers/HomeController.cs:302-319 | the appending loops leave the response plus every error value in order when there are errors; Detail instead when there are none; "" when there is neither; the response unchanged for null details |
| Home.Marshalled | GeoMarker.Frontiers/GeoMarker.Frontiers.Web/Controllers/HomeController.cs:302-319 | null details leave the response as it is; with errors the response is followed by every error value in order |
| Home.ConcatAppend | GeoMarker.Frontiers/GeoMarker.Frontiers.Web/Controllers/HomeController.cs:308-312 | joining two lists of values is joining each and appending |
| Home.FlattenIsConcat | GeoMarker.Frontiers/GeoMarker.Frontiers.Web/Controllers/HomeController.cs:308-312 | appending value by value, error by error, gives the join of the single list of all values |
| Home.ExtractValidationError | GeoMarker.Frontiers/GeoMarker.Frontiers.Web/Controllers/HomeController.cs:276-300 | a 400 whose body reads as problem details gives the validation message around the marshalled errors; exactly every other exception gives the general error |
| Home.SortTypes | GeoMarker.Frontiers/GeoMarker.Frontiers.Web/Controllers/HomeController.cs:333 | Types.Sort leaves the types ascending in enum order and a permutation of the input |
| Home.SinkDown | GeoMarker.Frontiers/GeoMarker.Frontiers.Web/Controllers/HomeController.cs:333 | inserting the next type into the sorted prefix keeps it sorted and keeps the same elements |
| Home.SwapDown | GeoMarker.Frontiers/GeoMarker.Frontiers.Web/Controllers/HomeController.cs:333 | one swap of neighbours exchanges them, leaves every other place alone and keeps the same elements |
| Home.ReverseTypes | GeoMarker.Frontiers/GeoMarker.Frontiers.Web/Controllers/HomeController.cs:334 | Types.Reverse puts each type at the mirrored position |
| Home.ReversedDescending | GeoMarker.Frontiers/GeoMarker.Frontiers.Web/Controllers/HomeController.cs:332-334 | reversing an ascending list gives a descending list with the same elements |
| Home.Reversed | GeoMarker.Frontiers/GeoMarker.Frontiers.Web/Controllers/HomeController.cs:334 | a list read back to front, position by position |
| Home.ReversedMembers | GeoMarker.Frontiers/GeoMarker.Frontiers.Web/Controllers/HomeController.cs:334 | reversing keeps exactly the same members |
| Home.ReversedKeepsElements | GeoMarker.Frontiers/GeoMarker.Frontiers.Web/Controllers/HomeController.cs:334 | reversing keeps the same multiset of elements |
| Home.HomeController.constructor | GeoMarker.Frontiers/GeoMarker.Frontiers.Web/Controllers/HomeController.cs:328-414 | the controller, its repository, metadata service and API service share one context |
| Home.HomeController.Composite | GeoMarker.Frontiers/GeoMarker.Frontiers.Web/Controllers/HomeController.cs:328-414 | the types end descending and a permutation of the selection; the tables and the two messages are those of the passes over the sorted and reversed types |
| Home.HomeController.Pass | GeoMarker.Frontiers/GeoMarker.Frontiers.Web/Controllers/HomeController.cs:343-409 | one pass: before the last type, insert a Requested node linked to the previous GUID; on the last, submit; a failed insert sets the general error |
| Home.HomeController.StartJob | GeoMarker.Frontiers/GeoMarker.Frontiers.Web/Controllers/HomeController.cs:352-409 | the last pass starts the job; an exception from the start gives its message and, for the composite start, deletes the chain inserted so far; a null response gives the general error |
| Home.HomeController.RecordJob | GeoMarker.Frontiers/GeoMarker.Frontiers.Web/Controllers/HomeController.cs:355-397 | a started job adds its metrics record, then sets the success message, then inserts its Processing node linked to the previous GUID |
| Home.Insert | GeoMarker.Frontiers/GeoMarker.Frontiers.Web/Controllers/HomeController.cs:397-408 | a taken GUID changes no table and sets the general error; a free one stores the node under its GUID and makes it the previous GUID; the metrics and the success message are untouched |
| Home.PlantStep | GeoMarker.Frontiers/GeoMarker.Frontiers.Web/Controllers/HomeController.cs:343-409 | a pass before the last changes no metrics record and no success message |
| Home.Submit | GeoMarker.Frontiers/GeoMarker.Frontiers.Web/Controllers/HomeController.cs:352-409 | a start that throws changes no metrics record and no success message; a null response changes no table and gives the general error |
| Home.Record | GeoMarker.Frontiers/GeoMarker.Frontiers.Web/Controllers/HomeController.cs:368-397 | a metrics record is added and a request stored only with the success message set |
| Home.Planted | GeoMarker.Frontiers/GeoMarker.Frontiers.Web/Controllers/HomeController.cs:343-410 | until the last type has been passed, no metrics record or success message is set |
| Home.WaitingRows | GeoMarker.Frontiers/GeoMarker.Frontiers.Web/Controllers/HomeController.cs:383-397 | the waiting passes add exactly one Requested node per fresh GUID, linked to the one inserted before it, and leave every stored row alone |
| Home.WaitingChain | GeoMarker.Frontiers/GeoMarker.Frontiers.Web/Controllers/HomeController.cs:336-397 | read from the node inserted last, the waiting nodes form one chain back to the first, which has an empty NextRequest |
| Home.WaitingKeepsClosed | GeoMarker.Frontiers/GeoMarker.Frontiers.Web/Controllers/HomeController.cs:383-397 | inserting the waiting nodes keeps every chain closed and every row under its own GUID |
| Home.PlantedPartials | GeoMarker.Frontiers/GeoMarker.Frontiers.Web/Controllers/HomeController.cs:343-397 | every pass before the last inserts a waiting node and sets no message |
| Home.StartFaultRestores | GeoMarker.Frontiers/GeoMarker.Frontiers.Web/Controllers/HomeController.cs:352-404 | a start that throws deletes every waiting node again: the requests are as before, with the exception's message and no success message |
| Home.WaitingUndone | GeoMarker.Frontiers/GeoMarker.Frontiers.Web/Controllers/HomeController.cs:352-353 | deleting the chain from the GUID inserted last, as a failed composite start does, removes exactly the waiting nodes and leaves the store as it was |
| Home.NullStartKeepsWaiting | GeoMarker.Frontiers/GeoMarker.Frontiers.Web/Controllers/HomeController.cs:352-409 | a start with a null response gives the general error and leaves the waiting nodes stored, Requested, with no submitted node before them |
| Home.StartedChain | GeoMarker.Frontiers/GeoMarker.Frontiers.Web/Controllers/HomeController.cs:343-397 | a started job heads a chain of all the selected types; the submitted node is Processing with the file's name and the others Requested with no file; each keeps the site only for DriveTime and the year only for CensusBlockGroup; the last node has no successor; the job's record is added and older rows are untouched |
| Home.StartedOutcome | GeoMarker.Frontiers/GeoMarker.Frontiers.Web/Controllers/HomeController.cs:343-397 | the tables and messages of a started job, as one value |
| Home.StartedLinks | GeoMarker.Frontiers/GeoMarker.Frontiers.Web/Controllers/HomeController.cs:366-393 | the chain from the submitted node is its GUID followed by the waiting nodes from last to first |
| Home.StartedChainAscending | GeoMarker.Frontiers/GeoMarker.Frontiers.Web/Controllers/HomeController.cs:332-367 | with the types sorted and reversed, the chain from the submitted node visits the types in ascending enum order |
| Home.PlantedKeepsClosed | GeoMarker.Frontiers/GeoMarker.Frontiers.Web/Controllers/HomeController.cs:328-414 | whatever the start answers, Composite keeps every chain closed and every row under its own GUID, given a submitted GUID no row links to |
| Home.StartedStoreClosed | GeoMarker.Frontiers/GeoMarker.Frontiers.Web/Controllers/HomeController.cs:352-397 | a started job keeps every chain closed, whether or not its node gets inserted |
| Home.StartRefusedKeepsWaiting | GeoMarker.Frontiers/GeoMarker.Frontiers.Web/Controllers/HomeController.cs:368-409 | a started job whose record or node cannot be added leaves the waiting nodes as the only change to the requests |
| Home.SubmitStarted | GeoMarker.Frontiers/GeoMarker.Frontiers.Web/Controllers/HomeController.cs:349-378 | the last pass on a started job records that job |
| Home.RecordRefused | GeoMarker.Frontiers/GeoMarker.Frontiers.Web/Controllers/HomeController.cs:368-397 | a job whose record or node cannot be added changes no request |
| Home.LastPass | GeoMarker.Frontiers/GeoMarker.Frontiers.Web/Controllers/HomeController.cs:343-410 | the result of Composite is the last pass applied to the store holding the waiting nodes |
| Home.StartedKeepsClosed | GeoMarker.Frontiers/GeoMarker.Frontiers.Web/Controllers/HomeController.cs:355-397 | inserting the submitted node before the waiting ones keeps every chain closed |

## Left out

- Process spawning, stream capture and file I/O. The working directory is an abstract snapshot: whether it exists, its output matches, its log time and its last write. A process start is a flag.
- The Exited callback runs concurrently with the request path on the task list. Here the two are sequential events.
- The glob semantics of the output Matcher. Its matches are a given sequence of paths.
- HTTP, the typed service clients, PingService and HealthCheck. These are network code; their answers are oracle parameters.
- The completion and partial-success emails (SendCompletedEmail, SendEmailAsync). The model also does not capture an email failure aborting a sweep, since sending is I/O.
- GetJsonService is not modelled. Nor is the regular expression in GetJsonAddressService that quotes numbers in the geocoder's output: it is text post-processing of foreign output, and the model keeps only the removal of newlines.
- Case-insensitive comparison folds ASCII letters only. Ordinal case folding of other characters is .NET runtime code.
- The Stream branch of GetRecordCount. No caller sets a stream.
- GetRecordsProcessed and GetRecordsProcessedUsers. They are unfiltered listings whose only logic is ordering.
- The order in which the LINQ queries return rows. The queries return maps keyed by GUID.
- The order of DeleteStaleRequestsJob's deletions. The rows are removed as a set.
- EF change tracking. Every Update and SaveChanges is an immediate write to the maps.
- In the composite sweep, a listed node that the same sweep has already deleted is passed over. The source would poll the detached object.
- One `now` is taken for each sweep or request. The source reads DateTime.UtcNow at each use.
- GetProcessTime works on whole ticks, so the TotalHours rounding of TimeSpan is not modelled.
- The Records sums of the admin page are unbounded integers. A C# overflow is not modelled.
- The database's own limits on dates are not modelled.
- RefreshUserRequestData, and the single-type path StartGetAsyncOperation of HomeController. Both are thin calls of the modelled operations: a query, a refresh, and one start with its record.
- The null-reference exception on a null File in Composite is not modelled. The form's validation rejects a missing file before Composite runs.
- A null start response in Composite throws a null-reference exception in the source. The model only keeps where it ends: the general-error message.
- The request and record GUIDs that Guid.NewGuid draws are parameters (`newGuids`, `recordGuid`, `freshGuid`, `guid`).
- The float megabyte figure in the file-size message, and the texts of the resource messages. These are localised strings.
- CompositeValidation.Validate reports the first failing rule, as the validator's CascadeMode.Stop makes it. The message texts and the aggregation of the site and year lists into them are not modelled.
- A null composite request object is not modelled, nor a null Services list. The JSON binder never produces either.
- The other small validators are not part of this model. These are the per-service JSON validators, DeGaussDrivetimeRequestValidator and DeGaussCensusBlockGroupRequestValidator beyond their SITES and YEARS lists, the record and async validators, FileSizeLimit, SiteRequiredIfDriveTime, YearRequiredIfCensusBlockGroup and the mail settings validators.
- GetCompositeUserRequests() without a user is not modelled. It has the same filter as the per-user query, without the user test.
- Repository.Stamped: its own contract states only that the keys stay. What stamping does to each row is stated by Repository.StampedRows and Repository.StampedKeepsLinks.
- ApiRequests.CompositeFailureCascades: it asks for a non-empty polled GUID. A row stored under "" starts no walk, so nothing is stamped beyond it.
- ProcessChainedRequest, AdvanceChain, FailChain, RefreshCompositeRequest and RefreshCompositeRequests require AllClosed and KeysMatch over the whole request store: every chain ends, and every row is stored under its own GUID. The source does not check either. Every modelled writer keeps AllClosed, starting from the empty store: RemovalKeepsClosed, AddingKeepsClosed, EmptyKeyKeepsClosed, WaitingKeepsClosed, SweepKeepsClosed and WalksKeepClosed, and RefreshCompositeRequests ensures both again.
- Repository.UserRequestRepository.ApplyStatusToRequestChain: it requires a closed chain. On a chain that comes back to one of its nodes, the source loops forever.
- Home.HomeController.Composite: the types are a Dafny array, sorted by an insertion sort. List.Sort's own algorithm is not modelled, only its result: ascending and a permutation.
