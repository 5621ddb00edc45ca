# YouTube folder uploader — a Dafny model of its upload orchestration

The uploader watches folders on disk. Each watched folder holds one
sub-directory (an "item") per video: a `.mp4`, an optional `.png`/`.jpg`
thumbnail and a `metadata.json`. On every cron firing of a folder's job it
does four things:

- picks the pending item with the lowest numeric prefix;
- skips the item if its video is already recorded as uploaded;
- otherwise uploads the video to YouTube, through a process-wide
  sliding-window rate limiter and a bounded retry on HTTP 503;
- records the upload in the ledger and moves the item to
  `<folder>/archive/<item>`.

This project models the six pieces of that orchestration and proves their
properties:

- the rate limiter (`rate_limiter.dfy`);
- the retry and classification policy of `uploadVideo` (`youtube_service.dfy`);
- the upload pipeline `processVideoUpload` (`video_upload_service.dfy`);
- the job registry, the shared run flag and the item selection of the cron
  service (`cron_service.dfy`);
- interval parsing and schedule stepping (`schedule_utils.dfy`);
- the job counters (`job_monitor.dfy`).

Supporting modules:

- `common.dfy`: JavaScript truthiness, prefix and suffix tests, decimal digits,
  and `Array.prototype.find`.
- `paths.dfy`: `path.join`, `dirname` and `basename` on normalised paths.
- `filesystem.dfy`: an in-memory filesystem with `readdir`, `mkdir`, `rename`
  and `rmdir`.
- `upload_ledger.dfy`: the ledger as an in-memory value, with one function
  per statement of `videoUploadModel` that the upload path uses.

Time is an explicit parameter, in milliseconds (minutes for schedule
stepping). The YouTube API is an oracle `api(request, attempt)`.

## Model

| member | source | states |
|---|---|---|
| RateLimiting.Prune | src/utils/rateLimiter.js:14-16 | Every kept timestamp was in the list and is younger than the window (strictly). Every timestamp younger than the window is kept. The list never grows. |
| RateLimiting.PruneAppend | src/utils/rateLimiter.js:14-16 | Pruning distributes over concatenation, so it keeps the survivors in their original order. |
| RateLimiting.PruneSortedSuffix | src/utils/rateLimiter.js:14-19 | On a time-ordered list, pruning drops exactly a prefix of expired timestamps. The first survivor is therefore the oldest one. |
| RateLimiting.PruneLater | src/utils/rateLimiter.js:14-25 | Pruning at t1 and then again at a later t2 equals pruning once at t2. This is why the re-check after a wait starts from scratch. |
| RateLimiting.WindowBound | src/utils/rateLimiter.js:14-29 | While the limiter's window state holds, at most maxRequests of the grants made since construction or the last reset lie within the trailing window, at any time from the latest one seen on. |
| RateLimiting.GrantKeepsWindow | src/utils/rateLimiter.js:18-29 | Recording a grant after pruning has left room, at a time not before the last one, keeps the window state. |
| RateLimiting.RateLimiter.constructor | src/utils/rateLimiter.js:4-9 | Default limits are 10 requests per 60000 ms. The request list and the grant history start empty. |
| RateLimiting.RateLimiter.CanMakeRequest | src/utils/rateLimiter.js:11-30 | Always returns true. No wait happens iff the pruned count is below maxRequests. At most one wait, strictly positive, equal to timeWindow − (now − oldest survivor). After it, the fresh re-check has room. Records exactly the grant time at the end of the pruned list. If the clock has not run backwards, the window bound holds after the call and no wait exceeds timeWindow. |
| RateLimiting.RateLimiter.Reset | src/utils/rateLimiter.js:32-34 | The request list is empty afterwards. |
| YouTube.BuildRequest | src/services/youtubeService.js:75-90 | Title and description are copied. Tags default to [] when absent. The privacy status is "private" unless the metadata's value is truthy. |
| YouTube.Classify | src/services/youtubeService.js:115-140 | Retry iff the status is 503 and attempt < 3, with delay 5000·2^(attempt−1). QuotaExceededError iff no retry is taken and the first reason is "quotaExceeded". Otherwise the error is rethrown. |
| YouTube.AttemptOutcome | src/services/youtubeService.js:92-140 | An attempt is retried exactly on a 503 rejection with attempts left. It succeeds exactly when the API inserted the video, with that video id and test mode off. |
| YouTube.LastAttemptIsFinal | src/services/youtubeService.js:116 | The third attempt is never retried, whatever the response. |
| YouTube.BackoffSchedule | src/services/youtubeService.js:116-117 | The waits before attempts 2 and 3 are 5000 and 10000 ms, each double the one before. |
| YouTube.RejectionOutcomes | src/services/youtubeService.js:116-140 | A rejection becomes QuotaExceededError exactly when the quota check is reached and matches. It is retried exactly on a 503 with attempts left. Otherwise the same error is rethrown unchanged. |
| YouTube.YouTubeService.constructor | src/services/youtubeService.js:39-44 | Shares the given limiter. Test mode is on exactly when NODE_ENV is "development". |
| YouTube.YouTubeService.UploadVideo | src/services/youtubeService.js:47-142 | 1 to 3 attempts, each taking exactly one limiter grant. The delays are the backoff values. In test mode: one attempt, success, a "TEST-" id, and no API call. If the limiter's clock had not run past `now`, the limiter keeps its window state and its clock stays at or before the call's end, so WindowBound still applies to the next call. Outside test mode: every earlier attempt was a retried 503, and the result is the classified outcome of the last one. A thumbnail upload is tried iff the upload succeeded and thumbnailPath is truthy. Its failure never changes the result. |
| VideoUpload.Prepare | src/services/videoUploadService.js:18-40 | Each error exactly when its cause holds: metadata.json unreadable or not JSON; the item's listing failing; no entry ending ".mp4". It never reports an upload error. |
| VideoUpload.PrepareSelects | src/services/videoUploadService.js:24-40 | The video is the first ".mp4" entry. The metadata is the file's own, except that thumbnailPath is set to the first ".png"/".jpg" entry when there is one. |
| VideoUpload.VideoNameKeepsSuffix | src/services/videoUploadService.js:30-31 | The basename of a ".mp4" entry is non-empty and still ends in ".mp4". So a failure after the video is chosen always has a truthy name to record. |
| VideoUpload.MoveToArchive | src/services/videoUploadService.js:67-99 | The mkdir, the loop of renames and the rmdir end in exactly the state and error that Archive describes. |
| VideoUpload.VideoUploadService.constructor | src/services/videoUploadService.js:8-10 | The pipeline uses the given YouTube service. |
| VideoUpload.VideoUploadService.ProcessVideoUpload | src/services/videoUploadService.js:12-115 | Before a video is chosen, a failure calls nothing and writes nothing. After that, the upload result is passed on. A success writes the ledger as the source does: a new row, with the update keyed by the result's missing id, so the row stays in_progress. It then archives, and archive errors do not change the result. A failed upload leaves the filesystem as it was and writes exactly one failure row when the config id is non-zero. In test mode there is one attempt and a "TEST-" id. The limiter keeps its window state, as UploadVideo states. |
| VideoUpload.PipelineAppendsToLedger | src/services/videoUploadService.js:53-112 | Whatever the outcome, the pipeline only appends to the ledger: existing rows stay unchanged and in place, at most one upload row and one failure row are added, and an added upload row is in_progress. |
| VideoUpload.SuccessArchivesAsWritten | src/services/videoUploadService.js:53-99 | After a successful upload with nothing in the way, the item is under root/archive/item and its directory is gone. The ledger writes as written leave the new row in_progress and change no lookup, so a video path not known as completed before is still not known. |
| VideoUpload.SuccessArchivesAndRecords | src/services/videoUploadService.js:53-99 | With the corrected write (keyed by the new row's id), the same archival holds and the video path has a completed row. |
| Paths.SplitJoin | src/services/videoUploadService.js:68-72 | dirname and basename of join(dir, name) give back dir and name. |
| Paths.ArchivePathOfItem | src/services/videoUploadService.js:68-72 | The archive of root/item is root/archive/item. |
| FileSystem.RenameFile | src/services/videoUploadService.js:82-84 | One rename moves one entry from the source listing to the destination listing. |
| FileSystem.MoveAllMovesEverything | src/services/videoUploadService.js:81-86 | When no rename is blocked, the loop moves every listed file. The source listing loses exactly those files. |
| FileSystem.ArchiveCompletes | src/services/videoUploadService.js:67-95 | For an item with no obstacles, the archive step succeeds. The item's entries end up under root/archive/item, and the item is no longer listed under root. |
| FileSystem.Archive | src/services/videoUploadService.js:67-99 | The archive step never changes which paths are locked. When it ends without error, the item's directory is gone. |
| FileSystem.MoveThenRemove | src/services/videoUploadService.js:81-89 | With the destination empty and nothing in the way, every entry moves, the emptied item directory is removed, and its parent no longer lists it. |
| UploadLedger.CreateUploadEntry | src/models/videoUploadModel.js:5-36 | Appends one in_progress row with the next serial id and no YouTube id. |
| UploadLedger.UpdateUploadSuccess | src/models/videoUploadModel.js:38-55 | Marks completed exactly the row whose id equals the key and changes nothing else. An absent key (NULL) matches no row. |
| UploadLedger.FindByVideoPath | src/models/videoUploadModel.js:110-123 | Returns a completed row for the path iff one exists. |
| UploadLedger.CreateFailureEntry | src/models/videoUploadModel.js:57-90 | Appends exactly one failure row and leaves the upload rows unchanged. |
| UploadLedger.RecordSuccessAsWritten | src/services/videoUploadService.js:53-64 | The two writes as the source makes them: one in_progress row with the next id and no YouTube id is appended; nothing else changes. |
| UploadLedger.AsWrittenKeepsLookups | src/services/videoUploadService.js:53-64 | As written, the writes after a success leave the duplicate lookup for every video path exactly as it was. |
| UploadLedger.RecordSuccess | src/services/videoUploadService.js:53-64 | The corrected writes: one row is appended, completed, with the next id and the published video id; the failure rows are unchanged. |
| UploadLedger.AsWrittenNeverCompletes | src/services/videoUploadService.js:53-64 | With the update keyed by the upload result's absent id, the new row stays in_progress. The video path still has no completed row. |
| UploadLedger.RecordSuccessCompletes | src/services/videoUploadService.js:53-64 | Keyed by the new row's id, exactly that row is completed with the video id. Earlier rows are untouched, and the path is found from then on. |
| Cron.PendingEntries | src/services/cronService.js:91-98 | Keeps exactly the entries that are not "archive", not dot-names and not "Thumbs.db". |
| Cron.PendingEntriesCount | src/services/cronService.js:91-98 | Each kept entry is kept as often as the listing holds it. |
| Cron.PendingEntriesKeepOrder | src/services/cronService.js:91-98 | The filter keeps listing order: filtering a listing is filtering its parts one after the other. |
| Cron.PrefixBeforeDash | src/services/cronService.js:100-101 | Returns the longest prefix without '-', which is split("-")[0]. |
| Cron.ParseInt | src/services/cronService.js:100-101 | A string whose first character is not white space, a sign or a digit is NaN. |
| Cron.ParseIntOfDigits | src/services/cronService.js:100-101 | A run of decimal digits parses to the number it denotes. |
| Cron.KeyOfNumberedName | src/services/cronService.js:99-103 | An entry "<digits>-<title>" sorts by the value of its digits. |
| Cron.KeyLeTotal | src/services/cronService.js:99-103 | The fixed order on keys is total, transitive and antisymmetric. |
| Cron.KeyLeAgreesWithComparator | src/services/cronService.js:102 | On numeric keys, the order is exactly where numA − numB ≤ 0. |
| Cron.SortByKey | src/services/cronService.js:99-103 | Returns a permutation of its input, ascending by key. |
| Cron.SortByKeyStable | src/services/cronService.js:99-103 | The sort is stable: for every key, the entries with that key appear in the same order as in the input. |
| Cron.SortedHeadIsLeast | src/services/cronService.js:99-111 | The head of the sorted pending entries has a key no higher than any pending entry's key. |
| Cron.SortedHeadIsEarliest | src/services/cronService.js:99-111 | No pending entry listed before the sorted head has a key as low as the head's. |
| Cron.NextItem | src/services/cronService.js:91-111 | None iff there is no pending entry. Otherwise it is a pending entry whose key is not above any other pending entry's key. Among the pending entries with that lowest key, it is the first in listing order. |
| Cron.CheckItem | src/services/cronService.js:115-131 | Unreadable iff the item is not a directory. No video iff no entry ends ".mp4". Otherwise the video path is the first ".mp4", and the item is AlreadyUploaded iff the ledger has a completed row for it. |
| Cron.SelectNext | src/services/cronService.js:88-131 | A root listing error iff root is not a directory. NoPending iff no entry is pending. Otherwise CheckItem of the pending entry with the lowest key, the first such entry in listing order. |
| Cron.SelectedVideoIsUploaded | src/services/cronService.js:115-137 | The video the trigger looks up is the video the pipeline uploads. |
| Cron.SelectNextLedgerIndependent | src/services/cronService.js:123-131 | Any ledger with a completed row for the chosen video path makes the trigger skip the item. |
| Cron.DedupAfterSuccess | src/services/cronService.js:123-131 | After the corrected success write, the next firing skips the same item as AlreadyUploaded. |
| Cron.ReuploadAsWritten | src/services/cronService.js:123-137 | After the success write as written, the next firing selects the same item, Ready to be uploaded again. |
| Cron.RegistryKeys | src/services/cronService.js:33-35 | After scheduling every config, the registry's ids are exactly the configs' ids. |
| Cron.RegistryOrderMatches | src/services/cronService.js:163-165 | The key order lists each registered id exactly once. |
| Cron.RegistryHoldsLast | src/services/cronService.js:33-35 | Each id maps to the last config carrying it. |
| Cron.CronService.constructor | src/services/cronService.js:8-11 | No jobs, and the run flag is clear. |
| Cron.CronService.ScheduleJob | src/services/cronService.js:44-83 | The job is registered under config.id, replacing any job under that id. A new id is appended to the key order. The run flag is untouched. |
| Cron.CronService.CancelAllJobs | src/services/cronService.js:154-161 | No jobs are left, and the run flag is clear. |
| Cron.CronService.GetActiveJobs | src/services/cronService.js:163-165 | Returns exactly the registered ids, each once, in insertion order. |
| Cron.CronService.InitializeJobs | src/services/cronService.js:24-42 | After cancelling everything, the jobs are exactly the registry of the configs, in Map order. |
| Cron.CronService.BeginRun | src/services/cronService.js:49-56 | A firing starts iff the flag was clear, and the flag is raised afterwards. |
| Cron.CronService.EndRun | src/services/cronService.js:68-70 | The flag is cleared. |
| Cron.CronService.ProcessFolder | src/services/cronService.js:85-152 | The selection is SelectNext. Anything but Ready calls no upload and changes nothing. A Ready item goes to the pipeline, with the pipeline's whole outcome: an unreadable metadata.json changes nothing; on success the uploaded video is the selected one, the ledger gets the success write as written, and the filesystem gets the archive step; a failed upload leaves the filesystem alone and writes the failure row. The limiter keeps its window state, as UploadVideo states. |
| Cron.RunAppendsToLedger | src/services/cronService.js:85-152 | A run only appends to the ledger: existing rows stay unchanged and in place, at most one row of each kind is added, and an added upload row is in_progress. |
| Cron.CronService.Fire | src/services/cronService.js:48-71 | A firing runs iff no run is in progress. A skipped firing changes nothing. A run is exactly one processFolder run: its selection is SelectNext, and it leaves the filesystem and the ledger as that run's outcome says. The flag is clear afterwards, and the registry is unchanged. The limiter keeps its window state, as UploadVideo states. |
| Cron.OverlappingFirings | src/services/cronService.js:49-56 | The flag is global, so a second firing during a run is skipped, whatever folder it is for. |
| ScheduleUtils.RecordKeepsLast | src/utils/scheduleUtils.js:6-9 | After recording the matches, each unit holds the number of its last match. A unit with no match is left as it was. |
| ScheduleUtils.Matches | src/utils/scheduleUtils.js:2-9 | Each match takes at least two characters (a digit and a unit), so the scan from i finds at most half of the characters left. |
| ScheduleUtils.ParseScheduleInterval | src/utils/scheduleUtils.js:1-16 | The loop's result is the interval the string denotes: per unit, the last match's number, or 0. A string with no match gives 0d0h0m. |
| ScheduleUtils.FormatRoundTrip | src/utils/scheduleUtils.js:1-16 | Parsing "<d>d<h>h<m>m" gives back (d, h, m). |
| ScheduleUtils.ExampleHoursMinutes | src/utils/scheduleUtils.js:1-16 | "2h30m" denotes 0 days, 2 hours, 30 minutes. |
| ScheduleUtils.ExampleDaysHours | src/utils/scheduleUtils.js:1-16 | "1d4h" denotes 1 day, 4 hours, 0 minutes. |
| ScheduleUtils.ExampleSurroundingText | src/utils/scheduleUtils.js:2-9 | Text before the first match is skipped: "every 1d4h" denotes 1 day, 4 hours, 0 minutes. |
| ScheduleUtils.NoMatchesIn | src/utils/scheduleUtils.js:2-9 | A stretch without digits contributes no match: the scan from its start finds what the scan from its end finds. |
| ScheduleUtils.ScansMatches | src/utils/scheduleUtils.js:2-9 | On a string made only of runs of digits each followed by a unit, the global scan finds exactly those numbers and units, in order. |
| ScheduleUtils.MatchesOfTwo | src/utils/scheduleUtils.js:2-9 | Text without digits followed by two numbers with their units yields exactly those two matches. |
| ScheduleUtils.MatchesOfThree | src/utils/scheduleUtils.js:2-9 | "<d>d<h>h<m>m" yields exactly the three matches (d, 'd'), (h, 'h'), (m, 'm'). |
| ScheduleUtils.HoursMinutesSpelling | src/utils/scheduleUtils.js:1-16 | Any text without digits, then "<h>h<m>m", denotes 0 days, h hours, m minutes. |
| ScheduleUtils.DaysHoursSpelling | src/utils/scheduleUtils.js:1-16 | Any text without digits, then "<d>d<h>h", denotes d days, h hours, 0 minutes. |
| ScheduleUtils.GenerateScheduleTimes | src/utils/scheduleUtils.js:18-24 | The result is base + 1440·days + 60·hours + minutes, never before base, and equal to base for a zero interval. |
| JobMonitoring.JobMonitor.constructor | src/utils/jobMonitor.js:2-9 | All counters start at 0, with the start time given. |
| JobMonitoring.JobMonitor.LogJobRun | src/utils/jobMonitor.js:11-15 | jobsRun grows by one. Exactly one of successfulUploads (the default) and failedUploads grows by one. jobsRun = successes + failures is preserved. |
| JobMonitoring.JobMonitor.GetStats | src/utils/jobMonitor.js:17-23 | Copies the counters without changing them, keeps jobsRun = successes + failures, and gives the uptime as floor((now − start)/1000). |
| Common.DecimalRoundTrip | src/services/youtubeService.js:64 | The decimal spelling of a number reads back as that number. |
| Common.FindFirst | src/services/videoUploadService.js:25 | Returns the first index whose entry satisfies the predicate, or None iff there is none. |

## Left out

- The SQL statements, the connection pool and database errors. The ledger is an in-memory value. A throwing `createUploadEntry` or `updateUploadSuccess` is not modelled.
- The HTTP layer, the OAuth setup of the YouTube client, the folder-config and schedule-metadata services, and the command-line scripts.
- When a job fires. Cron-expression evaluation belongs to node-schedule, and a firing is a call here. An invalid cron expression is also left out: `scheduleJob` would return null, and `cancelAllJobs` would later throw on it.
- Cron.CronService.ScheduleJob: a job replaced under an existing id is dropped from the registry but, as in the source, never cancelled, so it would keep firing. That orphaned timer is not modelled.
- `lastStatus` and the once-a-minute status log of the cron service. Neither affects any decision.
- The quota pause: `processFolder` stores `pauseUntil` only from a `{quotaExceeded}` result. The pipeline never returns one, because it throws QuotaExceededError, so that branch is unreachable. Nothing reads `pauseUntil` either.
- Async interleaving. Firings and limiter calls are sequential. The shared run flag is modelled through BeginRun/EndRun.
- Timer lateness: a wait of w ms is taken to end exactly w ms later.
- `Date`, local time zones and daylight saving. GenerateScheduleTimes counts whole minutes, so a day is 1440 minutes.
- RateLimiting.RateLimiter.CanMakeRequest: the window bound and the wait ≤ timeWindow are promised only while the clock never runs backwards. For a clock set back, the model shows only what the code computes.
- RateLimiting.RateLimiter.constructor: requires maxRequests to be at least 1. With 0, the source reads the oldest request of an empty list, waits NaN, which Node runs as a 1 ms timer, and re-checks forever without granting.
- `fs.statSync`, the read streams of the video and the thumbnail, and the googleapis calls. Their only modelled effect is the oracle's response. A thumbnail failure is caught in the source, so it is not an input.
- Path normalisation by `path.join` (`..`, repeated or trailing slashes). Paths are joined with a single '/'.
- FileSystem.Rename: renaming a sub-directory moves only its own entry. Directories nested under it keep their old paths, whereas `fs.rename` moves the whole subtree. The archive lemmas require that the item's entries are not directories.
- Cron.ParseInt: digits are read exactly. JavaScript numbers above 2^53 lose precision, which is not modelled.
- ScheduleUtils.ParseScheduleInterval: the digits of a match are read exactly. `parseInt` gives a JavaScript number, which loses precision above 2^53; that is not modelled.
- Cron.SortByKey / Cron.NextItem / Cron.SelectNext: the model fixes one order for the keys: numbers ascending, then every name without a leading number (a NaN key), in listing order. The source's comparator `numA - numB` gives NaN whenever a key is NaN, and `Array.prototype.sort` takes NaN as "equal", so the source's order is not defined once NaN keys sit among numbers. Where every comparison involves a NaN, the source keeps listing order. For example, with `["notes.txt", "1-a"]` the source takes `notes.txt`, whose listing then fails, while NextItem, and so SelectNext, takes `1-a`. The model agrees with the source when every pending name starts with a number.
- VideoUpload.Prepare: the metadata's title and description are strings and its tags absent or a list of strings. A `metadata.json` whose title is not a string, or whose `tags` is a single string, cannot be represented. In the source, `tags || []` would pass such a string on to the API.
- A `metadata.json` that parses to a non-object. Setting `thumbnailPath` on such a value is not modelled.
- `listAllVideos`, `updateVideo`, `updateRetryAttempt` and `findSuccessfulUpload`: the upload path never calls them.
- The pipeline's `"unknown"` fallback for the video path in the failure row is unreachable, because `videoPath` is set just before `videoName`. Its `{}` fallback for the metadata is reached only when `metadata.json` parses to a falsy non-object (`null`, `0`, `false` or `""`) and the upload path then fails. Setting `thumbnailPath` on such a value throws, and without a thumbnail the upload reads `metadata.title` from it or sends an undefined title. That is the non-object metadata left out above.
- The trigger closure holds one flag for all folders, and the model follows the code. Run exclusivity is therefore global, not per folder.

## Findings

| source | as written | input that shows it | evidently intended | confidence | as-written member | corrected member |
|---|---|---|---|---|---|---|
| src/services/videoUploadService.js:61-64 | The success update is keyed by `uploadResult.id`. `uploadVideo` returns `{success, videoId}` with no `id`, so the key is undefined and is bound as NULL. `WHERE id = NULL` matches no row, and the row just created stays `in_progress`. | Any successful upload of an item whose archive step then fails before moving anything, e.g. a plain file named `archive` in the watched folder. The next firing finds no completed row for the video path and uploads the same video again. | Key the update by `uploadEntry.id`, the row created just before. | high; not executed | UploadLedger.AsWrittenNeverCompletes, VideoUpload.SuccessArchivesAsWritten, Cron.ReuploadAsWritten | UploadLedger.RecordSuccessCompletes, VideoUpload.SuccessArchivesAndRecords, Cron.DedupAfterSuccess |
