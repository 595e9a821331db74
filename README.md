# url-checker-backend, modelled in Dafny

The model covers the core of an uptime monitor.

- **Targets.** Users register HTTP targets (health checks). Each URL is normalized before it is stored, and no URL can be stored twice.
- **Scheduler.** A scheduler probes every enabled target that is due. Each probe appends one result row and updates the target's live status: UP or DOWN, the consecutive-failure count, and the last error.
- **Read side.** The newest results of a target, and an uptime summary over a one-hour or 24-hour window.
- **Retention.** A nightly sweep deletes results older than the retention period.
- **Room presence.** A registry that tracks which STOMP sessions are subscribed to which chat room.
- **Request logging.** The helpers of the request-logging filter, and its decision between info and warn.

All paths below are relative to the repository root. `…/uptime/` stands for `src/main/java/com/doomole/uptime/`.

| Dafny file | module | what it models |
|---|---|---|
| `wrappers.dfy` | `Wrappers` | Java's `null` (`Option`) and thrown exceptions (`Result`) as values |
| `java_text.dfy` | `JavaText` | the `String` operations the code uses: `trim`, `isBlank`, `startsWith`/`endsWith`, ASCII `toLowerCase`, `equalsIgnoreCase` |
| `url_normalizer.dfy` | `UrlNormalizer` | `CommonUtil.normalizeUrl` as a rewrite of URL components |
| `store.dfy` | `Store` | the `HealthCheck` and `HealthCheckResult` entities, the derived queries of both repositories, and a `Stores` class holding the target map and the result sequence |
| `health_check_service.dfy` | `HealthCheckService` | add, update and delete of targets; evaluation of one probe; `shouldRun`; recent results; the summary |
| `health_check_scheduler.dfy` | `HealthCheckScheduler` | `tick` (the loop over the due targets) and `cleanup` (the retention delete) |
| `room_presence.dfy` | `RoomPresence` | the two maps of sets updated by subscribe, unsubscribe and disconnect |
| `http_logging.dfy` | `HttpLogging` | `shouldSkip`, `clientIp`, `safeHeaders`, `isBinary`, `safeTrim`, and the summary-line level |

## How the source is represented

- **State.**
  - The state-changing services are classes: `Stores`, `HealthCheckService`, `HealthCheckScheduler` and `RoomPresenceService`.
  - Their methods have `modifies` clauses. Their postconditions give the new state as a function of the old one.
  - Pure functions carry the promised properties, and lemmas relate those functions to each other.
- **Inputs from outside.** The clock is the `now` argument, in whole seconds. What a probe came back with is a `Probe` value. `java.net.URI` parsing is a function argument `parse`.
- **Aborted checks.** In `tick`, each due target's check either completes with a probe or aborts. An abort is an exception escaping `runOneCheck`; since `tick` has no catch, the pass stops there.
- **Identifiers.** Ids are natural numbers handed out by counters in `Stores`, as the database's IDENTITY columns do (`…/uptime/entity/HealthCheck.java:20-22`).
- **Edge cases of the code that the model keeps:**
  - **Upper-case scheme.** The `startsWith("http://")` test is case-sensitive (`…/uptime/utils/CommonUtil.java:8-9`). So `"HTTP://Example.com:80/a/"` is parsed as `"https://HTTP://Example.com:80/a/"` (`UrlNormalizer.UpperCaseSchemeGetsPrefixed`).
  - **Idempotence.** Normalization is idempotent only for paths that do not end in `"//"`, because one pass removes a single trailing slash (`UrlNormalizer.CanonicalizeIdempotentIff`).
  - **Empty summary window.** A summary over a window with no results throws before it computes an uptime (see Findings).

## Model

| member | source | states |
|---|---|---|
| JavaText.Trim | src/main/java/com/doomole/uptime/utils/CommonUtil.java:7 | String.trim: never longer than the input, and neither end of the result is a character up to U+0020 |
| JavaText.TrimIsSlice | src/main/java/com/doomole/uptime/utils/CommonUtil.java:7 | trim removes only a run of characters up to U+0020 at the start and one at the end: the result is the slice of the input between them |
| JavaText.TrimIdempotent | src/main/java/com/doomole/uptime/utils/CommonUtil.java:7 | trimming twice is trimming once |
| JavaText.ToLower | src/main/java/com/doomole/uptime/utils/CommonUtil.java:17 | toLowerCase keeps the length and lower-cases each ASCII letter in place |
| JavaText.ToLowerIsLower | src/main/java/com/doomole/uptime/utils/CommonUtil.java:17 | the lower-cased host has no upper-case letter, and lower-casing it again changes nothing |
| UrlNormalizer.WithScheme | src/main/java/com/doomole/uptime/utils/CommonUtil.java:7-10 | the text handed to the parser always begins with "http://" or "https://", ends with the trimmed input, and is at most 8 characters longer |
| UrlNormalizer.WithSchemeIdempotent | src/main/java/com/doomole/uptime/utils/CommonUtil.java:7-10 | preparing an already prepared text changes nothing |
| UrlNormalizer.WithSchemeKeeps | src/main/java/com/doomole/uptime/utils/CommonUtil.java:7-10 | trimmed text that already begins with "http://" or "https://" is handed over unchanged |
| UrlNormalizer.WithSchemePrefixes | src/main/java/com/doomole/uptime/utils/CommonUtil.java:8-9 | trimmed text without either prefix gets "https://" put in front |
| UrlNormalizer.UpperCaseSchemeGetsPrefixed | src/main/java/com/doomole/uptime/utils/CommonUtil.java:8-9 | "HTTP://Example.com:80/a/" gets "https://" put in front, because the prefix test is case-sensitive |
| UrlNormalizer.CanonicalPath | src/main/java/com/doomole/uptime/utils/CommonUtil.java:21-22 | a null or blank path becomes "/"; any other path is kept or loses exactly one trailing slash; the result ends in '/' only when it is "/" or the path ended in "//" |
| UrlNormalizer.Canonicalize | src/main/java/com/doomole/uptime/utils/CommonUtil.java:12-32 | succeeds iff the scheme is http or https (ignoring case) and the path begins with '/'; scheme, user info and query are kept and the fragment dropped; the host is the lower-cased input host; the port is dropped iff it is absent or the scheme's default |
| UrlNormalizer.SlashPathOnce | src/main/java/com/doomole/uptime/utils/CommonUtil.java:22 | a path beginning with '/' is left alone iff it is "/" or does not end in '/' |
| UrlNormalizer.CanonicalPathTwice | src/main/java/com/doomole/uptime/utils/CommonUtil.java:21-22 | a second pass over a canonical path changes it iff the original path ended in "//" |
| UrlNormalizer.CanonicalizeFixes | src/main/java/com/doomole/uptime/utils/CommonUtil.java:13-32 | when the second pass leaves the path alone, it leaves every other component alone too |
| UrlNormalizer.CanonicalizeIdempotentIff | src/main/java/com/doomole/uptime/utils/CommonUtil.java:13-32 | canonicalizing a canonical URL changes nothing iff the original path did not end in "//" |
| UrlNormalizer.IsDefaultPort | src/main/java/com/doomole/uptime/utils/CommonUtil.java:19-20 | a dropped port is 80 or 443 under a known scheme; an absent port is never dropped |
| UrlNormalizer.Render | src/main/java/com/doomole/uptime/utils/CommonUtil.java:24-33 | the printed URL begins with the scheme and ":", and ends with path, query and fragment |
| UrlNormalizer.RenderBeginsWithScheme | src/main/java/com/doomole/uptime/utils/CommonUtil.java:24-33 | the printed URL of an http(s) URI begins with "http:" or "https:", ignoring case |
| UrlNormalizer.RenderHasHttpPrefix | src/main/java/com/doomole/uptime/utils/CommonUtil.java:24-33 | with a lower-case scheme and a host, the printed URL begins with "http://" or "https://" |
| UrlNormalizer.RenderSchemeHostPath | src/main/java/com/doomole/uptime/utils/CommonUtil.java:24-33 | a URL with only scheme, host and path prints as scheme + "://" + host + path |
| UrlNormalizer.NormalizeUrl | src/main/java/com/doomole/uptime/utils/CommonUtil.java:5-37 | null gives null; the result is a URL iff the parser accepts the prepared text and the parsed URI can be rebuilt, and then it is the printed canonical URI; anything else is IllegalArgumentException; a result always begins with "http:" or "https:", ignoring case |
| UrlNormalizer.NormalizeUrlIdempotent | src/main/java/com/doomole/uptime/utils/CommonUtil.java:5-37 | normalizing a normalized URL gives it back (lower-case scheme, a host, a parser that reads back what is printed, no trailing "//") |
| UrlNormalizer.BareHostGetsHttpsAndSlash | src/main/java/com/doomole/uptime/utils/CommonUtil.java:7-33 | a bare lower-case host name "h" is stored as "https://h/" |
| Store.ByTarget | src/main/java/com/doomole/uptime/repo/HealthCheckResultRepo.java:13 | exactly the results of the given target, never more than all results |
| Store.ObservedFrom | src/main/java/com/doomole/uptime/repo/HealthCheckResultRepo.java:15 | exactly the results observed at or after the bound, never more than all results |
| Store.WithStatus | src/main/java/com/doomole/uptime/repo/HealthCheckResultRepo.java:17-19 | exactly the results with the given status, never more than all results |
| Store.ByTargetCounts | src/main/java/com/doomole/uptime/repo/HealthCheckResultRepo.java:13 | each result of the target is kept as many times as it is stored, every other result not at all |
| Store.ObservedFromCounts | src/main/java/com/doomole/uptime/repo/HealthCheckResultRepo.java:15 | each result at or after the bound is kept as many times as it is stored, every other result not at all |
| Store.WithStatusCounts | src/main/java/com/doomole/uptime/repo/HealthCheckResultRepo.java:17-19 | each result with the status is kept as many times as it is stored, every other result not at all |
| Store.CountWithStatusSince | src/main/java/com/doomole/uptime/repo/HealthCheckResultRepo.java:17-19 | the count with a status never exceeds the count of all results in the window |
| Store.CountSince | src/main/java/com/doomole/uptime/repo/HealthCheckResultRepo.java:15 | the window count never exceeds the target's results, nor all results |
| Store.WindowCounts | src/main/java/com/doomole/uptime/repo/HealthCheckResultRepo.java:15-19 | the two counts are the number of stored results of the target in the window, and of those with the status, each counted as often as it is stored |
| Store.CountsOnAppend | src/main/java/com/doomole/uptime/repo/HealthCheckResultRepo.java:15-19 | both counts are 0 on no results, and saving one more result raises each by one exactly when that result matches |
| Store.InsertNewest | src/main/java/com/doomole/uptime/repo/HealthCheckResultRepo.java:13 | inserting into a newest-first list keeps it newest-first and adds exactly that element |
| Store.NewestFirst | src/main/java/com/doomole/uptime/repo/HealthCheckResultRepo.java:13 | OrderByObservedAtDesc: sorted newest first, and a permutation of its input |
| Store.Top1Newest | src/main/java/com/doomole/uptime/repo/HealthCheckResultRepo.java:21 | null iff the target has no results; otherwise one of its results, and none of its results is newer |
| Store.NewestPage | src/main/java/com/doomole/uptime/repo/HealthCheckResultRepo.java:13 | the first page: min(size, count) of the target's results, newest first, starting with the top-1 result; when short, all of them |
| Store.NewestPageIsNewest | src/main/java/com/doomole/uptime/repo/HealthCheckResultRepo.java:13 | the page is drawn from the target's results, and no result left off the page is newer than any result on it |
| Store.CountObservedBefore | src/main/java/com/doomole/uptime/repo/HealthCheckResultRepo.java:23 | deleted plus kept is all; nothing is deleted iff every result is at or after the cutoff |
| Store.ObservedFromKeepsAll | src/main/java/com/doomole/uptime/repo/HealthCheckResultRepo.java:23 | when nothing is before the cutoff, the delete keeps the sequence as it is |
| Store.ObservedFromIdempotent | src/main/java/com/doomole/uptime/repo/HealthCheckResultRepo.java:23 | a second delete with the same cutoff deletes nothing |
| Store.Stores.FindByEnabledTrue | src/main/java/com/doomole/uptime/repo/HealthCheckRepo.java:10 | every enabled target exactly once, each as stored |
| Store.ExistsByUrl | src/main/java/com/doomole/uptime/repo/HealthCheckRepo.java:12 | false on no targets, and true whenever some stored target has the URL |
| Store.Stores.Insert | src/main/java/com/doomole/uptime/entity/HealthCheck.java:20-22 | save of a new target: a fresh id, the map gains exactly that entry |
| Store.Stores.Save | src/main/java/com/doomole/uptime/service/HealthCheckService.java:86 | save of an existing target replaces exactly its entry |
| Store.Stores.DeleteById | src/main/java/com/doomole/uptime/service/HealthCheckService.java:96 | the map loses exactly that key; results untouched |
| Store.Stores.Append | src/main/java/com/doomole/uptime/service/HealthCheckService.java:195 | the result gets the next id and is appended at the end |
| Store.Stores.DeleteByObservedAtBefore | src/main/java/com/doomole/uptime/repo/HealthCheckResultRepo.java:23 | results before the cutoff are removed, the rest kept in order, and the number removed is returned |
| HealthCheckService.AddValidation | src/main/java/com/doomole/uptime/service/HealthCheckService.java:33-47 | add is accepted iff the URL normalizes, is not stored yet, is http(s) for an HTTP check, and the interval is present; each error (invalid URL, duplicate, HTTP URL required, missing interval) occurs exactly when the checks before it pass and its own fails |
| HealthCheckService.NewTarget | src/main/java/com/doomole/uptime/service/HealthCheckService.java:43-58 | a new target is UNKNOWN, enabled, with no failures, threshold 1 and window 3, no check, error or latency yet, created now and never updated; it takes the request's name, interval and type (HTTP by default) and the normalized URL; it is due at any time |
| HealthCheckService.AddKeepsUrlsUnique | src/main/java/com/doomole/uptime/service/HealthCheckService.java:36-38 | the duplicate check keeps stored URLs unique |
| HealthCheckService.Updated | src/main/java/com/doomole/uptime/service/HealthCheckService.java:68-85 | each non-null request field replaces its field and nothing else changes; a new URL must normalize; the update succeeds iff the URL is http(s) for an HTTP check and is its own or not stored yet; the type error comes before the duplicate error; updatedAt is now |
| HealthCheckService.UpdateToSameUrl | src/main/java/com/doomole/uptime/service/HealthCheckService.java:75 | re-sending the target's own URL is never a duplicate |
| HealthCheckService.UpdateKeepsUrlsUnique | src/main/java/com/doomole/uptime/service/HealthCheckService.java:70-79 | a successful update keeps stored URLs unique |
| HealthCheckService.ResultOf | src/main/java/com/doomole/uptime/service/HealthCheckService.java:183-194 | the result row: UP iff the code is 200..399, never UNKNOWN, code 0 stored as null, observed at now, with the latency and error message |
| HealthCheckService.IsUp | src/main/java/com/doomole/uptime/service/HealthCheckService.java:183 | code 0 (no response) and codes from 400 are down; 200, the redirects 301 and 302, and 399 are up |
| HealthCheckService.Evaluated | src/main/java/com/doomole/uptime/service/HealthCheckService.java:197-207 | UP resets the failure count and error; DOWN adds one failure and records the error; the status stays consistent; only the six live fields change |
| HealthCheckService.TrailingDown | src/main/java/com/doomole/uptime/service/HealthCheckService.java:183-184 | the length of the final run of down probes |
| HealthCheckService.ReplayFailCount | src/main/java/com/doomole/uptime/service/HealthCheckService.java:197-203 | after any sequence of checks, failCount is the number of consecutive down checks at the end (plus the earlier count if all were down) |
| HealthCheckService.ShouldRun | src/main/java/com/doomole/uptime/service/HealthCheckService.java:213-218 | a never-checked target is due; a checked one is due iff its last check plus the interval is not after now |
| HealthCheckService.JustCheckedNotDue | src/main/java/com/doomole/uptime/service/HealthCheckService.java:205-218 | a target just checked is due again at the same instant iff its interval is not positive |
| HealthCheckService.DueStaysDue | src/main/java/com/doomole/uptime/service/HealthCheckService.java:212-218 | once due, a target stays due as time passes |
| HealthCheckService.NextDue | src/main/java/com/doomole/uptime/service/HealthCheckService.java:205-218 | after a check at now, the target is due at a later time iff at least the interval has passed |
| HealthCheckService.Recent | src/main/java/com/doomole/uptime/service/HealthCheckService.java:106-109 | a limit below one is refused; otherwise min(limit, 500, count) of the target's results, newest first, and none of the target's results left out is newer than one returned |
| HealthCheckService.WindowSeconds | src/main/java/com/doomole/uptime/service/HealthCheckService.java:124-128 | only "1h" (3600 s) and "24h" (86400 s) are accepted |
| HealthCheckService.UptimePercent | src/main/java/com/doomole/uptime/service/HealthCheckService.java:147 | between 0 and 100, 0 for an empty window, equal to up*100/total, and 100 iff every result was up |
| HealthCheckService.SummaryOf | src/main/java/com/doomole/uptime/service/HealthCheckService.java:130-151 | total and up are the window counts (each result counted once per time stored, by Store.WindowCounts), up never exceeds total, uptime is their ratio; the latest status is UNKNOWN with no code when the target has no results, and otherwise the newest result's status name and code |
| HealthCheckService.SummaryAsWritten | src/main/java/com/doomole/uptime/service/HealthCheckService.java:124-147 | as written: an unknown window fails, and an empty window fails too (page size 0) |
| HealthCheckService.EmptyWindowSummaryFails | src/main/java/com/doomole/uptime/service/HealthCheckService.java:136-138 | a target without results makes the summary throw |
| HealthCheckService.GetSummary | src/main/java/com/doomole/uptime/service/HealthCheckService.java:122-161 | corrected: fails only for an unknown window, and otherwise is the summary over the last 3600 or 86400 seconds |
| HealthCheckService.EmptyWindowSummaryIsZero | src/main/java/com/doomole/uptime/service/HealthCheckService.java:147-151 | corrected: an empty window gives 0% uptime and UNKNOWN |
| HealthCheckService.SummaryAgreesWhenNonEmpty | src/main/java/com/doomole/uptime/service/HealthCheckService.java:130-147 | whenever the window has a result, the corrected summary and the one as written agree |
| HealthCheckService.HealthCheckService.AddHealthCheck | src/main/java/com/doomole/uptime/service/HealthCheckService.java:33-61 | on success exactly one target is added, under a fresh id, and returned; on failure nothing changes; stored URLs stay unique |
| HealthCheckService.HealthCheckService.UpdateHealthCheck | src/main/java/com/doomole/uptime/service/HealthCheckService.java:63-90 | an unknown id is NotFound; otherwise the target is replaced by its update, or nothing changes when the update fails; stored URLs stay unique |
| HealthCheckService.HealthCheckService.DeleteHealthCheck | src/main/java/com/doomole/uptime/service/HealthCheckService.java:92-97 | NotFound iff the id is unknown; otherwise exactly that target is removed and its results are kept |
| HealthCheckService.HealthCheckService.RunOneCheck | src/main/java/com/doomole/uptime/service/HealthCheckService.java:163-210 | appends exactly one result and replaces the target by its evaluation; nothing else changes |
| HealthCheckScheduler.CleanupCutoff | src/main/java/com/doomole/uptime/scheduler/HealthCheckScheduler.java:48 | for a non-negative retention the cutoff is not after now, and for a positive one it is strictly before |
| HealthCheckScheduler.CleanupKeepsRecent | src/main/java/com/doomole/uptime/scheduler/HealthCheckScheduler.java:48-49 | the sweep keeps exactly the results at most retentionDays days old |
| HealthCheckScheduler.TickResults | src/main/java/com/doomole/uptime/scheduler/HealthCheckScheduler.java:29-40 | a pass appends one result per checked target, in order, numbered on from the next id, leaving earlier results as they were |
| HealthCheckScheduler.TickTargets | src/main/java/com/doomole/uptime/scheduler/HealthCheckScheduler.java:29-40 | checked targets are evaluated at now; every other target is unchanged |
| HealthCheckScheduler.TickStep | src/main/java/com/doomole/uptime/scheduler/HealthCheckScheduler.java:36 | one more checked target adds one result at the end and evaluates that target |
| HealthCheckScheduler.TickResultsShareNow | src/main/java/com/doomole/uptime/scheduler/HealthCheckScheduler.java:28-36 | every result of one pass is observed at the same now and belongs to a checked target |
| HealthCheckScheduler.TickAdvance | src/main/java/com/doomole/uptime/scheduler/HealthCheckScheduler.java:29-30 | stepping over a listed target keeps the pass's bookkeeping |
| HealthCheckScheduler.TickCovers | src/main/java/com/doomole/uptime/scheduler/HealthCheckScheduler.java:29-30 | a pass through the whole listing has checked every enabled target that was due |
| HealthCheckScheduler.HealthCheckScheduler.constructor | src/main/java/com/doomole/uptime/scheduler/HealthCheckScheduler.java:23-24 | retentionDays defaults to 30 |
| HealthCheckScheduler.HealthCheckScheduler.Tick | src/main/java/com/doomole/uptime/scheduler/HealthCheckScheduler.java:26-41 | each checked target was enabled, due and is checked once; the stores end as TickTargets and TickResults say; an unaborted pass checks every enabled due target; an aborted pass stops at a due target whose check aborted |
| HealthCheckScheduler.HealthCheckScheduler.Cleanup | src/main/java/com/doomole/uptime/scheduler/HealthCheckScheduler.java:43-54 | deletes exactly the results before now minus retentionDays days, returns how many, and leaves the targets alone |
| RoomPresence.MatchRoom | src/main/java/com/doomole/uptime/service/RoomPresenceService.java:20-21 | a match is the prefix "/topic/rooms/" followed by the captured id: non-empty, no '/' |
| RoomPresence.MatchRoomExactly | src/main/java/com/doomole/uptime/service/RoomPresenceService.java:20-21 | "/topic/rooms/" + id matches iff id is non-empty without '/', and then yields id |
| RoomPresence.Link | src/main/java/com/doomole/uptime/service/RoomPresenceService.java:58-67 | compute: the key is present afterwards and holds v; every set keeps what it had and gains at most v under the key; no empty set appears |
| RoomPresence.Drop | src/main/java/com/doomole/uptime/service/RoomPresenceService.java:93-100 | computeIfPresent: v leaves the set under the key and nothing else changes; the key goes only when v was all it held; no empty set appears |
| RoomPresence.UnsubscribeRooms | src/main/java/com/doomole/uptime/service/RoomPresenceService.java:82-90 | a destination naming a room gives just that room; otherwise all the session's rooms, none for an unknown session |
| RoomPresence.PresenceTopicIsARoom | src/main/java/com/doomole/uptime/service/RoomPresenceService.java:20-21 | a room's own ".presence" topic also matches, as the room id + ".presence" |
| RoomPresence.CountIsMembers | src/main/java/com/doomole/uptime/service/RoomPresenceService.java:32-34 | a room's count is the number of sessions listing the room, and 0 iff the room has no entry |
| RoomPresence.SubscribeKeepsConsistent | src/main/java/com/doomole/uptime/service/RoomPresenceService.java:58-67 | subscribing pairs session and room in both maps and keeps them inverse with no empty sets |
| RoomPresence.SubscribeIdempotent | src/main/java/com/doomole/uptime/service/RoomPresenceService.java:58-67 | the same subscribe twice is the same as once |
| RoomPresence.SubscribeCount | src/main/java/com/doomole/uptime/service/RoomPresenceService.java:58-62 | a subscribe raises the count by one, or by nothing when the session was in the room already |
| RoomPresence.UnsubscribeKeepsConsistent | src/main/java/com/doomole/uptime/service/RoomPresenceService.java:92-100 | removing the session from any rooms in both maps keeps them inverse with no empty sets, and it is gone from those rooms |
| RoomPresence.DisconnectForgetsSession | src/main/java/com/doomole/uptime/service/RoomPresenceService.java:110-119 | after a disconnect the session is in no room and the maps stay consistent |
| RoomPresence.DetachStep | src/main/java/com/doomole/uptime/service/RoomPresenceService.java:93-96 | one more computeIfPresent on roomSessions extends the removal by that room |
| RoomPresence.UnlinkStep | src/main/java/com/doomole/uptime/service/RoomPresenceService.java:97-100 | one more computeIfPresent on sessionRooms removes one more room from the session's set |
| RoomPresence.AnnouncedStep | src/main/java/com/doomole/uptime/service/RoomPresenceService.java:101 | announcing a room after its removal keeps every earlier notice's count right |
| RoomPresence.RoomPresenceService.constructor | src/main/java/com/doomole/uptime/service/RoomPresenceService.java:23-24 | both maps start empty and consistent |
| RoomPresence.RoomPresenceService.GetCount | src/main/java/com/doomole/uptime/service/RoomPresenceService.java:32-34 | the number of sessions in the room, 0 iff the room has no entry |
| RoomPresence.RoomPresenceService.OnSubscribe | src/main/java/com/doomole/uptime/service/RoomPresenceService.java:44-70 | without a destination or session, or with a non-matching destination, nothing changes; otherwise the pair is added to both maps and the room's new count is announced once |
| RoomPresence.RoomPresenceService.OnUnsubscribe | src/main/java/com/doomole/uptime/service/RoomPresenceService.java:73-103 | without a session nothing changes; a matching destination removes only that room's pairing, otherwise all the session's rooms; each room handled is announced once with its new count |
| RoomPresence.RoomPresenceService.LeaveRooms | src/main/java/com/doomole/uptime/service/RoomPresenceService.java:92-102 | the unsubscribe loop removes the pairings of exactly the given rooms from both maps and announces each once |
| RoomPresence.RoomPresenceService.OnDisconnect | src/main/java/com/doomole/uptime/service/RoomPresenceService.java:106-120 | an unknown or missing session changes nothing; otherwise the session's entry is removed, it leaves all its rooms, and each is announced once |
| HttpLogging.AnyPrefix | src/main/java/com/doomole/uptime/filter/HttpLoggingFilter.java:109-114 | the early-exit loop is true iff some listed prefix begins the string |
| HttpLogging.ShouldSkip | src/main/java/com/doomole/uptime/filter/HttpLoggingFilter.java:109-114 | true iff the URI starts with /actuator, /favicon, /assets, /static or /webjars |
| HttpLogging.SkipsEverythingUnder | src/main/java/com/doomole/uptime/filter/HttpLoggingFilter.java:109-114 | anything below a skipped prefix is skipped |
| HttpLogging.ApiIsLogged | src/main/java/com/doomole/uptime/filter/HttpLoggingFilter.java:29-31 | no URI under /api/ is skipped |
| HttpLogging.SummaryLevel | src/main/java/com/doomole/uptime/filter/HttpLoggingFilter.java:44-80 | no line for a skipped URI; warn iff it took more than 1000 ms or the status is at least 400; otherwise info |
| HttpLogging.WarnIsMonotone | src/main/java/com/doomole/uptime/filter/HttpLoggingFilter.java:68 | slower or worse-status requests stay at warn |
| HttpLogging.Fields | src/main/java/com/doomole/uptime/filter/HttpLoggingFilter.java:118 | the comma-separated fields: at least one, none containing a comma, the first being the text before the first comma, all empty iff the text is only commas |
| HttpLogging.FieldsJoin | src/main/java/com/doomole/uptime/filter/HttpLoggingFilter.java:118 | joining the fields with commas gives the text back |
| HttpLogging.DropTrailingEmpty | src/main/java/com/doomole/uptime/filter/HttpLoggingFilter.java:118 | split drops exactly the trailing empty fields |
| HttpLogging.JavaSplit | src/main/java/com/doomole/uptime/filter/HttpLoggingFilter.java:118 | split(","): one empty field for the empty string; otherwise a prefix of the fields ending in a non-empty one, with only empty fields dropped |
| HttpLogging.SplitShape | src/main/java/com/doomole/uptime/filter/HttpLoggingFilter.java:118 | split(",") is empty iff the text is non-empty and only commas; otherwise it starts with the first field |
| HttpLogging.ClientIpAsWritten | src/main/java/com/doomole/uptime/filter/HttpLoggingFilter.java:116-122 | as written: throws iff X-Forwarded-For is present, non-empty and only commas |
| HttpLogging.CommaHeaderThrows | src/main/java/com/doomole/uptime/filter/HttpLoggingFilter.java:118 | X-Forwarded-For "," makes clientIp throw |
| HttpLogging.ClientIp | src/main/java/com/doomole/uptime/filter/HttpLoggingFilter.java:116-122 | corrected: a non-blank X-Forwarded-For gives the trimmed text before its first comma, which has no comma; else a non-blank X-Real-IP; else the remote address |
| HttpLogging.ClientIpIsFirstHop | src/main/java/com/doomole/uptime/filter/HttpLoggingFilter.java:118 | the address is the trimmed left-most hop of X-Forwarded-For |
| HttpLogging.ClientIpSingleHop | src/main/java/com/doomole/uptime/filter/HttpLoggingFilter.java:118 | an X-Forwarded-For with one non-blank hop gives that hop, trimmed |
| HttpLogging.FieldsNoComma | src/main/java/com/doomole/uptime/filter/HttpLoggingFilter.java:118 | text without a comma splits into one field, itself |
| HttpLogging.ClientIpAgrees | src/main/java/com/doomole/uptime/filter/HttpLoggingFilter.java:116-122 | wherever the code as written returns, it returns what the corrected function returns |
| HttpLogging.SummaryAsWritten | src/main/java/com/doomole/uptime/filter/HttpLoggingFilter.java:68-80 | as written: the summary line throws iff it is a warn line and X-Forwarded-For is only commas |
| HttpLogging.FailedRequestWithCommaHeaderThrows | src/main/java/com/doomole/uptime/filter/HttpLoggingFilter.java:68-76 | a logged request answered 500 with X-Forwarded-For "," throws |
| HttpLogging.Summary | src/main/java/com/doomole/uptime/filter/HttpLoggingFilter.java:68-80 | corrected: the line has the summary level and carries the client address iff it is a warn line |
| HttpLogging.SummaryAgrees | src/main/java/com/doomole/uptime/filter/HttpLoggingFilter.java:68-80 | wherever the line as written is logged, the corrected one logs the same level and address |
| HttpLogging.JoinedAppend | src/main/java/com/doomole/uptime/filter/HttpLoggingFilter.java:126-134 | the builder's text for two runs of headers is the concatenation of their texts |
| HttpLogging.JoinedAt | src/main/java/com/doomole/uptime/filter/HttpLoggingFilter.java:126-134 | each header's entry appears in place between those of the headers before and after it |
| HttpLogging.JoinedSingle | src/main/java/com/doomole/uptime/filter/HttpLoggingFilter.java:129-133 | a single header gives just its entry |
| HttpLogging.SensitiveInAnyCase | src/main/java/com/doomole/uptime/filter/HttpLoggingFilter.java:128-130 | a header named authorization, cookie or set-cookie in any letter case appears as its own name with "***" |
| HttpLogging.SafeHeaders | src/main/java/com/doomole/uptime/filter/HttpLoggingFilter.java:124-136 | the trimmed concatenation of "name=value " entries for all headers in order, sensitive values masked |
| HttpLogging.IsBinary | src/main/java/com/doomole/uptime/filter/HttpLoggingFilter.java:138-150 | null is not binary; otherwise binary iff the lower-cased type starts with multipart/ or a listed binary type |
| HttpLogging.BinaryWhateverFollows | src/main/java/com/doomole/uptime/filter/HttpLoggingFilter.java:141-147 | any content type that lower-cases to a binary prefix followed by anything, parameters included, is binary |
| HttpLogging.SafeTrim | src/main/java/com/doomole/uptime/filter/HttpLoggingFilter.java:152-155 | null gives ""; a string of at most max characters is kept; a longer one becomes its first max characters plus "...", never longer than max + 3 |

## Left out

- java.net.URI parsing is the `parse` argument. Printing is the concatenation of the components. The URI constructor's percent-quoting, IPv6 brackets, registry-based authorities and its other refusals are not modelled; the only refusal modelled is a path that does not begin with '/'.
- JavaText.ToLower: lower-cases ASCII letters only. Java's locale-sensitive Unicode case mapping is not modelled.
- The HTTP probe (WebClient, the 15-second timeout, nanoTime) is not modelled: its outcome is the `Probe` argument and its latency a given integer.
- The clock is not modelled: `LocalDateTime.now()` is the `now` argument, in whole seconds, and a window of "1h" or "24h" is 3600 or 86400 seconds.
- HealthCheckService.Evaluated: failCount is an unbounded natural. The 32-bit `int` wrap-around after 2^31-1 consecutive failures is not modelled. The `(int)` cast of the latency is not modelled either.
- HealthCheckService.SummaryOf: the average latency and the rounding to one decimal (`Math.round`, floating point, NaN) are not modelled. Uptime is the exact rational up*100/total.
- getHealthCheckList (`…/uptime/service/HealthCheckService.java:99-104`) is not modelled separately: it is `ToResponse` mapped over all targets.
- HealthCheckService.HealthCheckService.AddHealthCheck: requires a non-null URL, which the controller's `@Valid` with `@NotBlank` guarantees. A request reaching the service with a null URL is not modelled.
- `@Transactional` rollback is modelled only as "a failed update changes nothing". Concurrency between the scheduler and the API, `@Scheduled` timing, MDC correlation ids, UUIDs and log output are not modelled.
- The order of results with equal observedAt is chosen by the database and is not fixed by the model. `NewestFirst` fixes one order, and the properties stated hold for any.
- RoomPresence: ConcurrentHashMap atomicity and the messaging template are not modelled. Events are handled one at a time, and the presence broadcasts are returned as a list of notices. Over a set of rooms, the notices come in no fixed order.
- RoomPresence: a missing STOMP accessor is not modelled separately. It behaves like a missing session.
- HttpLogging: the filter chain, the security principal, `Math.random` sampling, the debug body logging and the byte-to-UTF-8 decoding are not modelled. Headers are a list of names, each with its first value.
- HttpLogging.IsBinary: the source's comment says "exact match" for the non-slash types. The code tests `startsWith` in both branches, and the model follows the code.
- HttpLogging.SafeTrim: lengths count Unicode scalar values, where Java counts UTF-16 units. On text outside the Basic Multilingual Plane the cut falls elsewhere, and Java can cut inside a surrogate pair, which a Dafny string cannot hold.
- HealthCheckService.HealthCheckService.DeleteHealthCheck: the model assumes no foreign key from results to targets, so the deleted target's results stay behind. With the foreign key that the `@ManyToOne`/`@JoinColumn` mapping (`…/uptime/entity/HealthCheckResult.java:23-25`) gives under generated DDL, deleting a target that has results would fail instead; that database constraint is not modelled.
- Chat history, authentication (users, JWT), the exception handler, configuration classes, controllers and DTOs are outside the modelled core.

## Findings

| source | as written | input that shows it | evidently intended | confidence | as-written member | corrected member |
|---|---|---|---|---|---|---|
| src/main/java/com/doomole/uptime/service/HealthCheckService.java:136-147 | the latency page is requested with size `Math.min((int) total, 1000)`, and `PageRequest.of(0, 0)` throws before the `total == 0 ? 0.0` guard is reached | a summary of a target with no result in the window, e.g. one just created | an empty window gives 0% uptime, no average and the latest status (UNKNOWN when there are no results) | high (not executed) | HealthCheckService.SummaryAsWritten, HealthCheckService.EmptyWindowSummaryFails | HealthCheckService.GetSummary, HealthCheckService.EmptyWindowSummaryIsZero |
| src/main/java/com/doomole/uptime/filter/HttpLoggingFilter.java:68-76, 118 | `xf.split(",")[0]` indexes an empty array when X-Forwarded-For is only commas. The exception is thrown inside the `finally` block, so the warn line is lost and `copyBodyToResponse` is skipped | a request answered with status 500, or slower than 1000 ms, carrying `X-Forwarded-For: ,` | the left-most hop (here empty) is logged as the client address | medium (not executed) | HttpLogging.ClientIpAsWritten, HttpLogging.SummaryAsWritten | HttpLogging.ClientIp, HttpLogging.Summary |
