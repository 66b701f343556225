# SupportYourCreator — a verified model of the bot's core

SupportYourCreator runs a set of Discord bots. Supporters prove in a private support
thread that they played a creator's map: first an Epic Games name, then a screenshot
of the time tracker, or a streamable.com video. Reviewers approve the proofs in a
small web UI. Points weight the supporters' chances in a giveaway, and a second bot
keeps a leaderboard, counts invites and sums played minutes.

This project models the parts of the bot that hold its logic, one Dafny module per
source file:

- `Queues` (`queues.dfy`) covers src/queues.py and the copy of `RateLimitQueue` in
  ratelimit.py:
  - the per-second dispatch throttle;
  - the FIFO database and object-storage write queues;
  - the semaphore-bounded CPU queue.
  Each is a class whose methods are single steps of the worker loops. Futures are a
  map from id to Pending, Done or Failed.
- `RateLimit` (`ratelimit.dfy`) covers the route-limit bookkeeping of the httpx and
  discord.py handlers. This includes the `url.split("/api/v10/")[-1]` route key and
  the 429 retry loop.
- `DbHandler` (`db_handler.dfy`) covers db_handler.py:
  - the record cache `data/<id>.json`;
  - the save functions;
  - the full-row upserts into the `users` table that every save schedules as a task;
  - the restore of the cache and of the pending artifacts on startup.
- `Ocr` (`ocr.dfy`) covers the text side of src/ai.py: key/value extraction from OCR
  text, parsing of the "MapCodeXHash" proof string, the modular hash check and the
  rejection guard of `check_image`.
- `Play2Earn` (`play2earn.dfy`) covers play2earn_bot.py:
  - markdown escaping and the leaderboard rows;
  - the invite cache across joins, leaves and invite events;
  - the played-minutes sums;
  - the integer branches of `short_int`.
- `Giveaway` (`giveaway.dfy`) covers main.py: weighted selection without
  replacement, participant gathering and the count guard of `gewinnspiel`, and the
  routing decisions of `on_message`.
- `ReviewGui` (`review_gui.dfy`) covers reviewGUI/app.py: the pending-image listing
  and the status update routes.
- `DatabaseHandler` (`legacy_store.dfy`) covers the older single-image store of
  database_handler.py. It uses the same `data/<id>.json` path (database_handler.py:28-30)
  as `DbHandler.UserFile`.
- `Common` (`common.dfy`) holds the shared vocabulary: Option, scalar JSON values with
  Python truthiness, and Python's `split`, `strip`, `in`, `endswith` and `str(int)`.

The model abstracts the environment as follows:

- **Time.** The clock is an integer tick clock, passed as a parameter. A sleep is the
  gap between two readings of it.
- **Outcomes the code awaits.** These are parameters: a call's result or exception,
  whether a download or an upload succeeds, and the responses a server sends.
- **Randomness.** `random.choices` is an oracle that returns the index drawn in each
  round.
- **OCR.** The fuzzy key matcher is a function parameter. The OCR text is an input.
- **Secret hash key.** It is a parameter.
- **Files.** The file system is a map from name or path to content.
- **Headers.** Response headers are a map keyed by the canonical header names
  (`X-RateLimit-Global`, `Retry-After`, ...).

Some behaviour of the code is easy to overlook; the model states it as written:

- The restore saves each restored row through `save_user_data` (db_handler.py:309), so
  every restored row schedules its own upsert again (`DbHandler.Store.Restore`).
- A streamable.com link is saved only if no image or video attachment decided the
  message first. It is saved even at the Epic-name step (`Giveaway.StreamableSavedIff`).
- A user who reacted under several reactions is gathered once per reaction. The drawn
  winners are therefore distinct only when the gathered participants are
  (`Giveaway.Draw`).
- `weighted_random_selection` pops the first occurrence of the winner, which is not
  always the drawn index when participants repeat (`Giveaway.WeightedRandomSelection`).

## Model

| member | source | states |
|---|---|---|
| Queues.HandlerResolvesIffNotPrint | src/queues.py:41-53 | request_handler settles the future exactly when the method is not `print`: Done with the response, or Failed with the exception |
| Queues.AdmitBounds | src/queues.py:59-69 | after an admission the counter lies in 1..max_requests_per_second |
| Queues.Admit | src/queues.py:59-69 | an admission is counted at least once, on the second read at dequeue or the second the worker woke in; after a wake into a new second it is the first of that second |
| Queues.AdmitOnRollover | src/queues.py:60-63 | a new integer second resets the counter before counting, so the admission is the first of that second |
| Queues.AdmitAtCap | src/queues.py:65-69 | at the cap the worker moves to the second it wakes in and counts from 1 there |
| Queues.AdmitBelowCap | src/queues.py:65-69 | below the cap the admission is counted on the current second |
| Queues.AdmitKeepsInv | src/queues.py:56-69 | on a clock that does not go back, an admission keeps the invariant that no second was handed out more than the cap |
| Queues.ReplayKeepsInv | src/queues.py:56-69 | a run of admissions from the initial state keeps the throttle invariant: no logged second is after the current one, the counter is the number of admissions logged on the current second, and no second is logged more than the cap |
| Queues.PerSecondCap | src/queues.py:56-69 | from the state the constructor leaves, over any sequence of dequeues on a clock that does not go back, each admission logs the second it was counted on, and no second is logged more than max_requests_per_second times |
| Queues.EnqueueKeepsFlightInv | src/queues.py:36-39 | a new request gets a fresh, pending future |
| Queues.DispatchKeepsFlightInv | src/queues.py:58-72 | dispatching the head keeps every queued or dispatched future pending and distinct |
| Queues.HandleKeepsFlightInv | src/queues.py:41-53 | a handler resolves only its own future, which was still pending |
| Queues.RateLimitQueue.constructor | src/queues.py:28-34 | empty queue, counter 0, current second = the creation time |
| Queues.RateLimitQueue.AddRequest | src/queues.py:36-39 | a fresh pending future; the envelope goes to the back of the queue |
| Queues.RateLimitQueue.WorkerStep | src/queues.py:56-75 | takes the oldest request, applies the rollover / cap / count step, keeps the counter in 1..cap and dispatches with the admitted second and count; an empty queue changes nothing. The worker of ratelimit.py:462-482 is the same loop |
| Queues.RateLimitQueue.RunHandler | src/queues.py:41-53 | the dispatched future, pending until then, gets the handler's result; no other future changes. The same holds for the handler at ratelimit.py:484-496 |
| Queues.SubmitKeepsFifoInv | src/queues.py:97-102 | a submission joins the back of the pending suffix |
| Queues.CompleteKeepsFifoInv | src/queues.py:105-119 | completing the head extends the completed prefix in submission order and resolves its future |
| Queues.DbQueue.Base | src/queues.py:90-95 | empty queue, no workers, the given name and worker count |
| Queues.DbQueue.PG | src/queues.py:128-131 | the queue is named "PostgreSQL" |
| Queues.DbQueue.ObjectStorage | src/queues.py:133-136 | the queue is named "Object Storage" |
| Queues.DbQueue.AddTask | src/queues.py:97-102 | a fresh pending future at the back; the unfinished count goes up by one |
| Queues.DbQueue.WorkerStep | src/queues.py:105-119 | the oldest task's future gets set_result or set_exception, exactly one task_done follows, and the item leaves the queue |
| Queues.DbQueue.Drain | src/queues.py:105-119 | whatever the outcomes, the worker completes every queued task in submission order, each future settled with its own outcome |
| Queues.DbQueue.StartWorkers | src/queues.py:121-125 | exactly max_workers worker tasks are created |
| Queues.CpuIntensiveQueue.constructor | src/queues.py:150-154 | the semaphore starts at max_workers |
| Queues.CpuIntensiveQueue.AddTask | src/queues.py:156-161 | a fresh pending future at the back |
| Queues.CpuIntensiveQueue.Begin | src/queues.py:163-169 | a worker takes the oldest task only when the semaphore is positive; never more than max_workers run |
| Queues.CpuIntensiveQueue.Finish | src/queues.py:169-185 | the running task's future is settled, the semaphore released and the item marked done |
| Queues.CpuIntensiveQueue.StartWorkers | src/queues.py:187-191 | exactly max_workers worker tasks are created |
| RateLimit.FlavorsDisagreeOnEmptyGlobal | ratelimit.py:333-334 | the httpx handler tests the global header's value, the discord.py one its presence (ratelimit.py:394); they differ exactly on an empty value |
| RateLimit.RouteKey | ratelimit.py:349 | the route key is a suffix of the url with no "/api/v10/" in it; when the url holds the marker, the key starts right after an occurrence of it; a url without the marker is its own key |
| RateLimit.RouteKeyOfApiUrl | ratelimit.py:349 | for `<base>/api/v10/<path>` the route key is the path |
| RateLimit.RouteWait | ratelimit.py:322-329 | the route sleep is 0 unless the route is known and exhausted, and then it ends at the reset instant |
| RateLimit.GlobalWait | ratelimit.py:318-320 | the global sleep is positive exactly when the global value is set, and is then that value |
| RateLimit.Update | ratelimit.py:331-345 | a global signal leaves the routes as they were; otherwise the global value is kept and the route gets an entry |
| RateLimit.GlobalUpdateKeepsRoutes | ratelimit.py:331-335 | a global signal sets only the global value, from Reset-After (default 0) |
| RateLimit.RouteUpdateIsLocal | ratelimit.py:336-345 | a route update changes only that route's entry and never the global value |
| RateLimit.GlobalValueIsSticky | ratelimit.py:331-345 | route updates never clear the global value |
| RateLimit.ExhaustedRouteWaitsUntilReset | ratelimit.py:322-345 | after a response with Remaining 0 the next request on the route waits until received + Reset-After |
| RateLimit.TraceShape | ratelimit.py:347-364 | a request's trace starts from the table and time of the call, every attempt but the last was answered 429 with headers, and a trace shorter than the exchanges ends on a response that is not retried |
| RateLimit.TraceWaits | ratelimit.py:316-329 | every attempt sends only after the global sleep and, on an exhausted route, not before the route's reset |
| RateLimit.TraceLinks | ratelimit.py:354-362 | each retried attempt is followed by one that checks the table its response left, once the Retry-After sleep is over |
| RateLimit.RateLimitHandler.constructor | ratelimit.py:311-314 | global value False (0), no routes |
| RateLimit.RateLimitHandler.CheckRateLimit | ratelimit.py:316-329 | the global sleep is the global value when it is set; the route sleep is measured on the clock after the global sleep, is positive exactly when the known route is exhausted and its reset is later than that, and then ends at the reset. The discord.py handler (ratelimit.py:373-388) does the same, keyed by route.path |
| RateLimit.RateLimitHandler.UpdateRateLimit | ratelimit.py:331-345 | the limits table after the update function of the headers: global from Reset-After when the global header signals, else the route's remaining count and reset instant. The discord.py handler (ratelimit.py:390-405) signals global by the header's presence |
| RateLimit.RateLimitHandler.Send | ratelimit.py:350-357 | one attempt: the waits are the ones check_rate_limit computes on the table before it, and the table afterwards is the update from the response headers, when there are any |
| RateLimit.RateLimitHandler.Request | ratelimit.py:347-364 | the attempts are the trace of the request from the table at the call: each attempt checks the table as the previous response left it, after the previous Retry-After sleep (default 1); exactly the 429 responses are retried, the first other response is returned, and the table ends as the last response left it. In the discord.py handler (ratelimit.py:407-426) the 429 test sits inside the test for headers, so a response without headers, 429 or not, updates nothing and is returned |
| RateLimit.HeaderlessResponseEndsRequest | ratelimit.py:414-426 | a discord.py response without headers is never retried, whatever its status: it is the last attempt and the table stays as it was |
| DbHandler.UserFileInjective | db_handler.py:36-38 | different ids never share a `data/<id>.json` file |
| DbHandler.UserFile | db_handler.py:36-38 | the path is "data/", then the id, then ".json" |
| DbHandler.Initialized | db_handler.py:41-53 | the default record is written only when no file exists; other records are untouched |
| DbHandler.InitializeIsIdempotent | db_handler.py:41-53 | initializing twice is initializing once |
| DbHandler.WithEpicName | db_handler.py:196-200 | the Epic name, the Discord name and the timestamp are set to the given values and the step to "image_proof"; no other field changes |
| DbHandler.WithImage | db_handler.py:211-230 | the images gain exactly one entry at the end, pending, with the url, the download path (None when the download failed) and the timestamp; the step becomes "wait"; no other field changes |
| DbHandler.WithVideo | db_handler.py:233-252 | the videos gain exactly one entry at the end, pending, with the url, the download path and the timestamp; the step becomes "wait"; no other field changes |
| DbHandler.ImageSaveAddsOnePending | db_handler.py:211-230 | an image save appends exactly one pending image, keeps earlier entries and the videos, and sets step "wait" |
| DbHandler.ImageNamesAreDistinct | db_handler.py:217 | successive image saves of a user get different file names |
| DbHandler.UpsertRestoreRoundTrip | db_handler.py:295-306 | restoring an upserted row (db_handler.py:348-376) gives the record back, with its key as id and without keys outside the ten columns |
| DbHandler.FromRow | db_handler.py:294-306 | the restored record carries the row's key as its id and no keys outside the ten columns |
| DbHandler.RestoreUpsertRoundTrip | db_handler.py:294-309 | upserting a restored record writes back the row it was read from |
| DbHandler.LastWriteWins | db_handler.py:348-376 | after the upserts run in order, an id's row is the full row of its last write; ids never written keep their row |
| DbHandler.BasenameOfLocalPath | db_handler.py:315-316 | the basename of a saved artifact's path is its name again, so restore looks for the file the save wrote |
| DbHandler.BlocksIff | db_handler.py:313-315 | a list blocks the restore exactly when it holds a pending entry without a path |
| DbHandler.RestoreIsIdempotent | db_handler.py:289-345 | on the cache and artifacts a completed restore leaves, a second restore over the same rows leaves both unchanged, and every wanted artifact in the bucket is already on disk, so it fetches nothing new (it still attempts the wanted artifacts that are neither on disk nor in the bucket) |
| DbHandler.FailedDownloadBlocksRestore | db_handler.py:211-230 | an image save whose download failed (db_handler.py:82-84) leaves a row that stops every restore |
| DbHandler.Store.LoadUserData | db_handler.py:56-63 | the cached record, or None when there is no file |
| DbHandler.Store.InitializeKey | db_handler.py:41-53 | the cache after initialization; nothing is scheduled |
| DbHandler.Store.SaveUserData | db_handler.py:152-171 | the file is overwritten and the upsert of that same record is scheduled |
| DbHandler.Store.SaveDmLink | db_handler.py:177-185 | only dm_link changes, and one upsert is scheduled |
| DbHandler.Store.SaveEpicName | db_handler.py:188-208 | accepted exactly when no Epic name is recorded; then the names, timestamp and step "image_proof" are set, and both scheduled upserts carry the new record, since the first shares its dict with the later mutation; when refused, the loaded record is saved and scheduled once |
| DbHandler.Store.SaveImage | db_handler.py:211-230 | a pending image named `<id>_<n+1>.png` is appended, with a path only when the download succeeded; the file is in the bucket only when the upload also succeeded |
| DbHandler.Store.SaveVideo | db_handler.py:233-252 | the same for videos, named `<id>_<n+1>.mp4` |
| DbHandler.Store.RunPgWrite | db_handler.py:348-381 | the oldest upsert replaces the full row when it succeeds; a failure is swallowed and leaves the table as it was |
| DbHandler.Store.Restore | db_handler.py:289-343 | completes exactly when no row holds a pending entry without a path; then the cache is the old one overwritten by every row, one upsert per row is scheduled again (db_handler.py:309), the local artifacts gain exactly the wanted ones the bucket holds, and exactly the missing wanted artifacts are attempted. When it stops, it stops at the first blocking row: that row and every row before it are saved and scheduled, and no row after it |
| DbHandler.Store.RestoreNext | db_handler.py:294-343 | one pass of the restore loop: the restored prefix grows by one row, or the row blocks the restore after it was saved and scheduled |
| DbHandler.Store.RestoreRow | db_handler.py:294-344 | one row: cache overwrite, upsert scheduled, then images and videos repaired |
| DbHandler.Store.RestoreArtifacts | db_handler.py:313-344 | attempts exactly the missing pending files and restores those the bucket holds; stops at a pending entry without a path |
| DbHandler.Store.RestoreArtifactsSkipping | db_handler.py:313-327 | the corrected loop: a pathless entry is skipped and every wanted file in the bucket is restored |
| Ocr.LineEntry | src/ai.py:136-141 | a line contributes only if it has a ':' and the matcher answers a key |
| Ocr.LineEntryCutsAtFirstColon | src/ai.py:137-139 | the line is cut at its first ':' only; key and value are stripped |
| Ocr.ExtractOcrData | src/ai.py:127-144 | the loop builds the dictionary of the lines in order |
| Ocr.OcrData | src/ai.py:127-144 | at most one key per line |
| Ocr.OcrKeysAreExpected | src/ai.py:146-154 | with a matcher into EXPECTED_KEYS (src/ai.py:28), every key of the result is expected |
| Ocr.OcrKeyHasALine | src/ai.py:134-141 | a key is present exactly when some line contributed it |
| Ocr.OcrLastLineWins | src/ai.py:140-141 | the stored value comes from the last line that contributed the key |
| Ocr.ExtractProof | src/ai.py:156-176 | three numbers exactly when the proof has one 'X' and every part has a digit; a missing played time raises the uncaught TypeError; otherwise the None triple |
| Ocr.DigitsSkipNoise | src/ai.py:169-171 | characters other than ASCII digits are dropped |
| Ocr.ExtractProofRoundTrip | src/ai.py:156-173 | "{map}X{hash}" with a played time parses back to the three numbers |
| Ocr.VerifyHash | src/ai.py:178-188 | a provided hash outside 0..3456788 is never accepted |
| Ocr.VerifyHashUnique | src/ai.py:178-188 | exactly one hash is accepted per map code and played time |
| Ocr.VerifyHashHasWitness | src/ai.py:178-188 | some hash in range is accepted |
| Ocr.CheckImage | src/ai.py:66-125 | no image or no data are rejected with their messages; with data, the result is checked exactly when the proof string parses to three numbers with a positive played time, and is then verify_hash of those numbers; a missing played time raises TypeError; the None triple or a played time of 0 is rejected as incomplete |
| Ocr.CheckImageOfProofLines | src/ai.py:91-110 | a screenshot text with the proof and played-time lines is checked against verify_hash; a played time of 0 is rejected |
| Play2Earn.EscapeDiscordMarkdown | play2earn_bot.py:82-87 | the replace loop escapes each special character with one backslash |
| Play2Earn.ReplaceAfterEscape | play2earn_bot.py:85-86 | backslash first, so inserted backslashes are never escaped again |
| Play2Earn.Escaped | play2earn_bot.py:82-87 | Discord shows the escaped text exactly as written, and it is one character longer per special character |
| Play2Earn.EscapedHasNoBareSpecial | play2earn_bot.py:82-87 | every special character of the output follows a backslash |
| Play2Earn.Leaderboard | play2earn_bot.py:93-96 | the filter never adds users |
| Play2Earn.LeaderboardMembers | play2earn_bot.py:93-96 | a user is listed exactly when neither tag is in the name |
| Play2Earn.LeaderboardAppend | play2earn_bot.py:93-96 | the filter keeps the order |
| Play2Earn.DisplayName | play2earn_bot.py:105 | names over 10 characters are cut to 9; others are kept |
| Play2Earn.LeaderboardRows | play2earn_bot.py:104-109 | one row per listed user, ranked from 1, with the cut and escaped name and the user's numbers |
| Play2Earn.FindUsedInvite | play2earn_bot.py:279-286 | the first invite whose uses exceed the cached count (0 if unknown), or none exactly when there is no such invite |
| Play2Earn.UsesByCode | play2earn_bot.py:296 | every new invite's code is in the rebuilt cache |
| Play2Earn.UsesByCodeKeys | play2earn_bot.py:296 | the rebuilt cache holds exactly the new invites' codes |
| Play2Earn.UsesByCodeValue | play2earn_bot.py:296 | each code maps to the uses of its last invite in the list |
| Play2Earn.InviteCreated | play2earn_bot.py:368-370 | the code is recorded under its guild, created if missing; other guilds are kept |
| Play2Earn.InviteDeleted | play2earn_bot.py:373-375 | the code is gone from its guild; an unknown guild or code changes nothing |
| Play2Earn.CreateThenDelete | play2earn_bot.py:367-375 | creating and then deleting a new code restores the cache |
| Play2Earn.InviteTracker.OnMemberJoin | play2earn_bot.py:276-296 | raises exactly for an uncached guild; the invite taken is the first whose uses went up; if its database write raised first or it has no inviter, the join aborts with nothing changed; otherwise the member is mapped to the code and inviter and the guild's cache is rebuilt; with no used invite nothing changes |
| Play2Earn.InviteTracker.OnInviteCreate | play2earn_bot.py:367-370 | the cache after creation |
| Play2Earn.InviteTracker.OnInviteDelete | play2earn_bot.py:372-375 | the cache after deletion |
| Play2Earn.InviteTracker.OnMemberRemove | play2earn_bot.py:336-364 | the inviter is reported exactly when the member is mapped with a truthy inviter id; the mapping is dropped unless the notification for that inviter raised first |
| Play2Earn.AddMinutes | play2earn_bot.py:182-183 | falsy minutes add nothing; integers add up |
| Play2Earn.TotalMinutes | play2earn_bot.py:174-184 | the sum stops at KeyError only on a `.json` file with a non-empty record lacking the key, and a completed sum passed no such file |
| Play2Earn.CalculateTotalMinutesPlayed | play2earn_bot.py:174-184 | the loop sum over the `.json` files, or the KeyError / TypeError that ends it |
| Play2Earn.PoisonedStaysPoisoned | play2earn_bot.py:174-184 | once raised, the rest of the listing does not matter |
| Play2Earn.SkippedFilesDoNotCount | play2earn_bot.py:177-180 | other files and empty records do not change the total |
| Play2Earn.TotalMinutesNonNegative | play2earn_bot.py:174-184 | non-negative integer minutes give a non-negative total |
| Play2Earn.SumCreatorMinutes | play2earn_bot.py:239-245 | the creator's minutes over the invited users |
| Play2Earn.CreatorMinutes | play2earn_bot.py:239-245 | the creator sum never raises KeyError |
| Play2Earn.CreatorPoisoned | play2earn_bot.py:239-245 | a TypeError ends the creator sum for good |
| Play2Earn.CreatorSkipsUnknown | play2earn_bot.py:240-242 | an invited user without a record adds nothing |
| Play2Earn.ShortInt | play2earn_bot.py:163-171 | the number itself exactly below 1000; None exactly from 10^12 |
| Play2Earn.ShortIntScale | play2earn_bot.py:166-171 | the abbreviated value num / divisor lies in [1, 1000) |
| Giveaway.FirstIndex | main.py:418 | `list.index`: the first position of the winner |
| Giveaway.WeightedRandomSelection | main.py:395-422 | min(num_winners, participants) winners drawn without replacement; distinct when the participants are; positive weights never make random.choices raise |
| Giveaway.SubMultisetOfDistinct | main.py:411-418 | winners drawn without replacement from distinct participants are distinct |
| Giveaway.Gathered | main.py:351-362 | one weight per participant, and no weight is 0 |
| Giveaway.GatheredMembers | main.py:350-361 | exactly the non-bot reactors whose points are truthy take part |
| Giveaway.GatheredWeights | main.py:357-361 | each weight is the participant's points |
| Giveaway.Draw | main.py:330-372 | refused exactly when fewer participants than winners are asked for; otherwise a draw of that many winners among the participants |
| Giveaway.Route | main.py:36-104 | a message is handled exactly when it is not from a bot and is in a private thread of the support category; without a record it asks for the Epic name |
| Giveaway.NothingSavedWithoutRecordOrInReview | main.py:46-54 | without a record, or at step "wait", nothing is saved |
| Giveaway.ImageSavedOnlyAtImageProof | main.py:57-80 | an image is saved only at step "image_proof", and it is the first attachment's url |
| Giveaway.StreamableSavedIff | main.py:46-100 | a streamable.com link is saved exactly when a record exists, the step is not "wait" and no image or video attachment came first |
| ReviewGui.ReplaceAbsent | reviewGUI/app.py:21 | `replace` leaves a string without the pattern alone |
| ReviewGui.ReplaceTrailing | reviewGUI/app.py:21 | a trailing ".json" is removed on its own |
| ReviewGui.FileIdOfUserFile | reviewGUI/app.py:21 | the file `update_image_status` opens for an id (reviewGUI/app.py:29) is listed under that id |
| ReviewGui.Tagged | reviewGUI/app.py:21 | the record gets `id` = the file name with every ".json" removed; other fields are kept |
| ReviewGui.Scan | reviewGUI/app.py:11-25 | a completed scan returns no more records than there are listed names |
| ReviewGui.ScanIff | reviewGUI/app.py:11-25 | the listing fails exactly on a `.json` file that is not an object; otherwise it holds exactly the pending records of the `.json` files, tagged, skipping invalid JSON |
| ReviewGui.ScannedArePending | reviewGUI/app.py:20-22 | every listed record is pending and has an id |
| ReviewGui.ScanStaysNone | reviewGUI/app.py:18-24 | an escaping exception ends the scan |
| ReviewGui.WithStatus | reviewGUI/app.py:36 | only image_status changes |
| ReviewGui.DataDir.LoadPendingImages | reviewGUI/app.py:11-25 | the loop returns the scan's result |
| ReviewGui.DataDir.UpdateImageStatus | reviewGUI/app.py:27-43 | False and no change for a missing file or invalid JSON; otherwise True, with only image_status set |
| ReviewGui.DataDir.UpdateStatus | reviewGUI/app.py:56-65 | success exactly when the update returned True, with the matching message |
| DatabaseHandler.EmptyEntry | database_handler.py:38 | every attribute of attributes_list is None |
| DatabaseHandler.EmptyEntryHasSevenAttributes | database_handler.py:13-21 | the new record has exactly seven attributes |
| DatabaseHandler.Stamped | database_handler.py:77-78 | a save sets its field and timestamp and leaves every other field as it was |
| DatabaseHandler.Load | database_handler.py:43-50 | None exactly when there is no file |
| DatabaseHandler.Current | database_handler.py:33-50 | initialize then load gives the stored record, or the empty record when there is no file |
| DatabaseHandler.LoadAfterSave | database_handler.py:64-69 | load after save returns the saved record; other users' records are untouched |
| DatabaseHandler.Directory.InitializeKey | database_handler.py:33-40 | the record of seven Nones is created only when absent |
| DatabaseHandler.Directory.LoadUserData | database_handler.py:43-50 | the record at `data/<id>.json`, or None |
| DatabaseHandler.Directory.GetUserEntry | database_handler.py:53-55 | the same as load_user_data |
| DatabaseHandler.Directory.SaveUserData | database_handler.py:64-69 | the file is overwritten; loading it returns the record; other users are unchanged |
| DatabaseHandler.Directory.SaveEpicName | database_handler.py:72-81 | epic_name and its timestamp are always overwritten, on the existing or empty record |
| DatabaseHandler.Directory.SaveImage | database_handler.py:84-93 | image_url and its timestamp are overwritten, on the existing or empty record |

## Left out

- Network and service clients are parameters or set effects:
  - HTTP downloads and uploads, the Streamable API, Discord messages, roles, threads, embeds and views;
  - the asyncpg pool and the object-storage client.
  A download or upload is a boolean outcome; a blob download succeeds exactly when the bucket holds the key. Transient blob failures are not modelled.
- OCR and image decoding (cv2, pytesseract) and the fuzzy matcher are not modelled. The OCR text is an input, and the matcher is any function into the expected keys or None.
- Floating point and real time are not modelled:
  - the `.1f` formatting of `short_int`;
  - the earnings and prize-pool arithmetic;
  - fractional sleeps and `time.time() % 1`.
  The clock counts whole ticks, and header numbers are read as whole ticks.
- RateLimit.NumberOr: a malformed numeric header (where `int()` or `float()` raises) is not modelled.
- Concurrency is not modelled: interleavings, `asyncio.Lock`, and the unlocked read-modify-write races. Each queue is a sequential state machine, and only the CPU semaphore's counter stands for concurrent work.
- DbHandler.Store.RunPgWrite: each save creates an independent `save_user_data_to_pg` task that shares a pool of 10 connections, so in the code upserts can commit out of creation order. The model runs the tasks one at a time in creation order.
- DbHandler.LastWriteWins: "last" means last in creation order, which is the order the model runs the tasks. Commits out of that order are not modelled.
- DbHandler.Store.SaveEpicName: only the `create_task` path of `save_user_data` (a running event loop) is modelled. In the synchronous fallbacks (db_handler.py:164-171) the first upsert runs to completion before the record changes.
- ReviewGui.DataDir.UpdateImageStatus: the file is looked up under the id as given. A user id holding "/" or "..", which `os.path.join("data", ...)` resolves outside `data/`, is not modelled.
- ReviewGui.DataDir.UpdateStatus: the same path gap as ReviewGui.DataDir.UpdateImageStatus.
- Queues.RateLimitQueue.WorkerStep: the clock readings are whole seconds that never go back, and the sleep to the next boundary is assumed to end at or after it. A wall clock that steps back, or an early wake-up, could let one second take more than max_requests_per_second admissions. The code does not rule either out.
- Queues.PerSecondCap: holds under the same clock assumptions as Queues.RateLimitQueue.WorkerStep.
- RateLimit headers are looked up by their canonical names; the case-insensitive lookup of httpx and aiohttp headers is not modelled.
- Giveaway.WeightedRandomSelection: the probability distribution of `random.choices` is not modelled. The oracle may pick any remaining index, including one of weight 0.
- Giveaway.Draw: the embed of winners and chances is not modelled; neither is the unused `with_populated` branch.
- The role assignments, channel checks and invite database helpers (`save_invite_join_to_database`, `save_invite_remove_to_database`) around the invite cache are not modelled, except whether they return or raise, which the join and leave handlers take as a parameter.
- Play2Earn.LeaderboardRows: the header line and the f-string column padding are not modelled.
- Play2Earn.CalculateTotalMinutesPlayed: a file of invalid JSON (which raises) is not modelled.
- Giveaway.Route: an attachment whose content type is None is not modelled.
- Record fields hold scalar JSON values in ReviewGui and DatabaseHandler. Nested lists and objects are not modelled.
- DatabaseHandler.Directory: files of invalid JSON, or files holding JSON `null`, are not modelled.
- The secret time-tracker key is a parameter of Ocr.VerifyHash.
- `patch_discord_http`, `psutil` logging, the CLI blocks, `on_ready` and the Flask `index`/`notify` routes are not modelled.

## Findings

| source | as written | input that shows it | evidently intended | confidence | as-written member | corrected member |
|---|---|---|---|---|---|---|
| db_handler.py:313-316 | restore calls `os.path.basename(image["image_path"])` outside the per-artifact `try` | an image saved while its download failed; `image_path` is None (db_handler.py:82-84, 218-223), and every later startup restore raises TypeError at that entry and stops | skip an entry without a path and go on restoring the rest | medium, not executed | DbHandler.FailedDownloadBlocksRestore | DbHandler.Store.RestoreArtifactsSkipping |
