# Verified model of the attendance backend

A model, in Dafny 4.11, of the state machines and loops at the core of a face-recognition attendance backend, with
proofs about every run, every input and every interleaving. The whole project is verified by
`dafny verify dfyconfig.toml`.

| file | what it models |
|---|---|
| Wrappers.dfy, Transactions.dfy | optional values; statements of a transaction, any of which may raise |
| TemplateStore.dfy | the template table and its audit log, written by the enrolment endpoint and the bulk importer |
| ImportCore.dfy, Importer.dfy | the bulk importer: durable steps, crashes and reruns; the row loop, its journal and its counters |
| Interleaving.dfy | runs of a protocol seen from one participant |
| TokenRotation.dfy, SessionApi.dfy | refresh-token rotation as a protocol over single Redis commands; the endpoints that run it |
| Tickets.dfy | one-time realtime tickets |
| Limiter.dfy, RealtimeApi.dfy | the realtime connection limiter as a protocol over single Redis commands; the endpoints that run it |
| Tracker.dfy | the greedy centroid tracker |
| Geometry.dfy, Pipeline.dfy | box decoding, cropping, resampling, padding; one batch from detector output to results |
| Attendance.dfy, AttendanceHistory.dfy, AttendanceApi.dfy | what an evaluation means; any history of sightings, evaluations, overrides and exports with its ledger; the service and the nightly evaluation on open sessions |
| AuditedWrites.dfy | transactional writes and their ledger rows, with a failure possible at any statement |
| GovernanceLog.dfy | the append-only trigger and the retention purge of the ledger |
| Retention.dfy | the nightly sweep of biometric templates |
| GraphRename.dfy | the in-place renaming of tensors in an exported ONNX graph |
| Retry.dfy | retries with backoff and a deadline, and the readiness cache |
| Poses.dfy | the pose guidance of live enrolment |

Protocols are functions from a state and an action to a state, and a run is any sequence of actions. The modules
SessionApi and RealtimeApi hold the code that takes those actions: each method runs one request while an arbitrary
sequence of other actions happens at each await, and is proved to be a run of the protocol in which
the request takes no steps but its own. Clocks, random ids,
failures and foreign code (hashing, image decoding, inference, vector search) are parameters, so the theorems hold
for every choice of them. Token expiry and identifiers are those of sections 4.1.4 and 4.1.7 of RFC 7519.

Where the code and its own comments or documentation differ, the model follows the code:

- A blocklist entry lives for a whole number of seconds (security.py:421), so it can lapse up to a second before its
  token does. In that second a refresh token can be rotated again and a replay can go unrecorded, against the comments
  at auth.py:289-297 and auth.py:468-471; WinsIffLapsed and RecordedIffStillRevoked say exactly when, and two lemmas
  exhibit it.
- The second lookup of a rejected token swallows every exception (auth.py:300-308), so when the store does not answer it
  a replay goes unrecorded at any age of the token, as FailedLookupHidesReplay shows.
- The retention sweep commits each of its two batches separately (tasks.py:491-520); the comments at tasks.py:499-501
  speak of rolling the whole sweep back.
- The purge's own row is said to survive because it is newer than the cutoff (migration 0007, lines 125-127); that holds
  exactly if the cutoff is not after now.
- The export leaves the last sighting of a student without one absent (attendance_service.py:418, 617-620), where the
  row type promises an empty string.
- Several comments in tracking.py speak of a shared sentinel id 0; the code gives single-frame detections -1, -2, and
  so on.
- An update of a missing row leaves its queued event behind (base.py:110-113), which a later write on the same service
  object would commit.
- The reservation of a websocket is taken before the block that releases it (websockets.py:382-390), so a handshake that
  raises in between leaks it.
- A tensor name that the graph already uses is captured by the renaming, and naming the output of a bare pass-through
  renames its input too (setup_models.py:157-182, 205-214).

## Model

| member | source | states |
|---|---|---|
| `Importer.InterruptedImportsConverge` | backend/scripts/import_enrollments.py:813-988 | If each (student number, image) pair occurs in one importable row, any chain of invocations crashed at any durable step, then one that completes, leaves every pose of every student with the active templates of one uninterrupted run, with and without overwriting |
| `Importer.CrashedRunResumes` | backend/scripts/import_enrollments.py:813-988 | Whatever state an invocation of a campaign had made durable when it crashed, a run that completes from there ends with the templates of one uninterrupted run from where the campaign began |
| `Importer.CrashExtendsChain` | backend/scripts/import_enrollments.py:813-988 | A crash of one more invocation, after any of its durable steps, is one more link of the crash chain |
| `ImportCore.CrashesDoNotMatter` | backend/scripts/import_enrollments.py:946-988 | The same over any template table that obeys the laws of rotation |
| `ImportCore.JournalFollowsCommit` | backend/scripts/import_enrollments.py:976-988 | At every point at which an invocation can crash, each journal key it wrote belongs to a row whose template is committed |
| `ImportCore.JournalNeverRunsAhead` | backend/scripts/import_enrollments.py:946-988 | The same over a whole campaign of crashed invocations with any database faults: each journal key that any of them wrote belongs to a row whose template is in the table |
| `ImportCore.DuplicatePairLosesAPose` | backend/scripts/import_enrollments.py:864-868 | Why the pairs must be distinct: one photo filed under two poses, a crash after the first journal line, and the second pose is never imported |
| `ImportCore.RerunWritesNothing` | backend/scripts/import_enrollments.py:864-975 | An immediate rerun after an error-free run takes no durable step in either mode |
| `ImportCore.FaultsDoNotMatterWhenRivalsAgree` | backend/scripts/import_enrollments.py:960-970 | Crashes mixed with transient database errors are repaired too when the rows that compete for a slot carry the same face |
| `ImportCore.FaultsHarmlessIff` | backend/scripts/import_enrollments.py:946-970 | Transient database errors are repaired by reruns, whatever rows they hit, if and only if rival rows agree |
| `Importer.TemplatesAreLawful` | backend/scripts/import_enrollments.py:575-644 | Rotation replaces the active faces of its own slot only and removes no stored template |
| `Importer.NewFacesQualify` | backend/scripts/import_enrollments.py:823-975 | Whatever a run leaves active that was not active before is the face extracted from the photo of one of its rows, of at least the minimum quality, in the slot of that row's student, who is in the roster and active, and its pose |
| `Importer.QualifyingRowsAreStored` | backend/scripts/import_enrollments.py:823-975 | Conversely, a row with all of that, not in the journal, whose write does not raise leaves its slot occupied |
| `Importer.WhoWinsASlot` | backend/scripts/import_enrollments.py:575-644 | With overwriting the last row that qualifies for a slot wins it; without, the first, and only if the slot was empty; a slot that no row qualifies for stays as it was |
| `Importer.ImportRun.FailedChecksAreToldApart` | backend/scripts/import_enrollments.py:823-939 | Each row that is not imported is counted under the first check it fails, in the order of the loop: unknown, inactive, unreadable, resumed, undecodable, no face, extraction error, low quality |
| `Importer.ImportRun.ImportsAreToldApart` | backend/scripts/import_enrollments.py:941-988 | Each row past all checks is counted as would-import, database error, active-exists, new or rotated, and one counted as imported has left its face alone in the slot and its key in the journal |
| `Importer.NewKeysAreOfRows` | backend/scripts/import_enrollments.py:852-868 | Every key a run adds to the journal is the student number of a row for an active student with the digest of its photo |
| `Importer.WarnedIff` | backend/scripts/import_enrollments.py:870-880 | A row is warned about exactly if it gets past the resume check with a photo that the first row to do so had for another student |
| `Importer.WarningsCount` | backend/scripts/import_enrollments.py:870-880 | The warnings are counted once per such row |
| `Importer.JournalOnlySkips` | backend/scripts/import_enrollments.py:823-939 | A journal turns an importable row into a resumed one and changes nothing else |
| `Importer.LoadJournal` | backend/scripts/import_enrollments.py:363-381 | Exactly the keys of the well-formed lines; corrupt and blank lines are skipped |
| `Importer.SummaryAddsUp` | backend/scripts/import_enrollments.py:773-988 | total_rows is the sum of rejects, resumed and active-exists skips, imports, would-imports, database and extraction errors; rotated is at most imported |
| `Importer.EveryRowCountedOnce` | backend/scripts/import_enrollments.py:820-988 | Every row falls under exactly one of the events that the counters tally |
| `Importer.SeenIsFirst` | backend/scripts/import_enrollments.py:870-880 | The owner recorded for an image is the student of the first row that bound it |
| `Importer.DryRunWritesNothing` | backend/scripts/import_enrollments.py:941-944 | A dry run takes no durable step |
| `Importer.ImportRun.Execute` | backend/scripts/import_enrollments.py:773-988 | The imperative run: its durable states are, step by step, those of the abstract pass up to the first row that loses the inference server, and so a crash after any of them is a link of the chain; what it newly leaves active, and the keys it adds, come from rows that pass every check, and a run without database errors leaves the slot of every such row occupied; its events are one per row |
| `Importer.ImportRun.PassIsBatch` | backend/scripts/import_enrollments.py:773-988 | The abstract pass of a real run in which no write raises is the batch of the resume guarantee |
| `Importer.ImportRun.Persist` | backend/scripts/import_enrollments.py:946-988 | Commit first, journal second: the two durable states a written row passes through, in that order, and none if the write fails or is skipped |
| `TemplateStore.EveryHistoryIsBalanced` | backend/app/api/v1/students.py:526-591 | Any history of API enrolments and importer writes, failed ones included, keeps at most one active template per student and pose, with creations minus archivals equal to the active count |
| `TemplateStore.EveryEnrolmentIsOnRecord` | backend/app/api/v1/students.py:526-591 | Over any history of enrolments and imports, failing at any statement, the committed API enrolments and the TEMPLATE_ENROLL rows correspond one to one and in order, and each row names a template of its slot |
| `TemplateStore.UpsertFaces` | backend/scripts/import_enrollments.py:587-636 | What an upsert leaves active in its own slot and in every other |
| `TemplateStore.UpsertMeans` | backend/scripts/import_enrollments.py:575-644 | An import appends one active template of the given version, deactivates those of its own slot, removes none, and logs the creation |
| `TemplateStore.EnrollMeans` | backend/app/api/v1/students.py:526-591 | An enrolment leaves its face alone in its slot as an active template of version 1, every other slot as it was, and a ledger row with the template and the number it replaced |
| `TemplateStore.ArchiveLogTells` | backend/app/api/v1/students.py:540-552 | The archive entries are those of the active templates of the slot, with their ids and qualities, and no others |
| `TemplateStore.ArchiveLogTally` | backend/app/api/v1/students.py:540-552 | Archiving writes one audit entry per active template of the slot and none for another slot |
| `TemplateStore.Store.Upsert` | backend/scripts/import_enrollments.py:563-644 | Skip, insert or rotate in one commit, as the code does it in place on an open session; select, flush or commit may raise, and then nothing is durable |
| `TemplateStore.Store.Enroll` | backend/app/api/v1/students.py:526-591 | The endpoint always rotates and puts the enrolment on record; if any of its four statements raises, neither is durable |
| `TokenRotation.OneLiveTokenPerLogin` | backend/app/api/v1/auth.py:399-503 | Under every interleaving, the refresh tokens of one login that were never blocklisted plus its rotations between winning SET NX and the new pair number at most one, plus one for every rotation won on a jti blocklisted before; any other token that still validates has outlived its entry and is in its last second |
| `TokenRotation.AtMostOneWithoutRepeats` | backend/app/api/v1/auth.py:399-503 | Unless a rotation is won on a jti blocklisted before, a login never has more than one token with a second to live that validates or is about to be issued, and no jti is rotated twice |
| `TokenRotation.LaterRotationsAreLate` | backend/app/api/v1/auth.py:455-460 | Every rotation of a jti but its first is one on a jti blocklisted before, and falls into the last second of the token or after it |
| `TokenRotation.WinsIffLapsed` | backend/app/core/security.py:412-432 | The SET NX lets a request through exactly when no entry for its jti is in force; the win repeats an earlier blocklisting exactly when there was an entry and it has lapsed, which takes until the last second of the token; a loser goes on to record a replay |
| `TokenRotation.LogoutRevokes` | backend/app/api/v1/auth.py:276-286 | Over every run: from the moment the SET of a logout is carried out the token is on the blocklist, and whatever anybody does afterwards, while it has a second to live it stays there, every lookup finds it, every SET NX on it loses, and no rotation of it is won |
| `TokenRotation.EarlyEntriesHold` | backend/app/core/security.py:412-432 | In every reachable state a token with an entry and a second to live is refused by lookup and SET NX alike |
| `TokenRotation.ReuseIsRecordedOnce` | backend/app/api/v1/auth.py:289-443 | A request denied as a replay has exactly one REFRESH_REUSED row and any other denial none; a request that saw its jti revoked is denied without a row only because the token has expired, because it is in its last second, or because the second lookup raised |
| `TokenRotation.RecordedIffStillRevoked` | backend/app/api/v1/auth.py:289-443 | Whatever other requests do at each await, a request that found its jti revoked records the replay exactly if the token still decodes, the second lookup is answered, an entry is in force at that lookup and the row commits; it is denied without a row exactly if one of the first three fails, and ends in an error exactly if only the commit does |
| `TokenRotation.EntryCovers` | backend/app/core/security.py:421-427 | A blocklist entry outlives its token up to the last second, covers the whole life exactly when it was written a whole number of seconds before the expiry or within the last second, and never outlasts a token that had a second to live |
| `TokenRotation.LateReplaySucceeds` | backend/app/core/security.py:421-427 | A concrete run in which one token is rotated twice without even a race |
| `TokenRotation.ReplayCanGoUnrecorded` | backend/app/api/v1/auth.py:289-308 | A concrete run in which a replay of an unexpired, revoked token leaves no row |
| `TokenRotation.FailedLookupHidesReplay` | backend/app/api/v1/auth.py:300-308 | A concrete run in which a replay leaves no row ten seconds before the token expires, because the exception of the second lookup is swallowed |
| `TokenRotation.StepPreservesInv` | backend/app/api/v1/auth.py:399-503 | Every single Redis or database command, answered, lost or never carried out, keeps the invariant: entries last into the last second, rows match denials, repeated wins are late |
| `TokenRotation.PlayContinues` | backend/app/api/v1/auth.py:399-503 | Running on from a reachable state reaches a reachable state, so what is proved of every run holds after every call |
| `SessionApi.Server.RefreshSession` | backend/app/api/v1/auth.py:399-503 | The endpoint, statement by statement with arbitrary other requests at every await and any command raising, is one interleaving of the protocol in which this request takes only its own steps; a grant needs an unexpired refresh token, a user and no failure, blocklists the token and issues a successor of the same login with the full lifetime; and when nobody else acts, every answer and every row is determined |
| `SessionApi.Server.Decide` | backend/app/api/v1/auth.py:455-503 | Whoever wins the SET NX mints a new pair, whoever loses records a replay, and a SET that raises is an error, with the entry written or not, as an interleaving |
| `SessionApi.Server.RejectRevoked` | backend/app/api/v1/auth.py:417-443 | The second decode, the second lookup with its swallowed exception, and the recorded replay, as an interleaving |
| `SessionApi.Server.BlocklistToken` | backend/app/core/security.py:412-432 | SET with EX and optionally NX, its reply and its whole effect, also when it raises |
| `SessionApi.Server.RevokeTokenIfValid` | backend/app/api/v1/auth.py:276-286 | One of the revocations of a logout, as an interleaving, with a lookup or SET that may raise; if the token was valid and the call ends well, it is on the blocklist |
| `TokenRotation.ForeignKeeps` | backend/app/api/v1/auth.py:399-503 | Other requests never move this one |
| `Tickets.EveryUseRedeemsOneIssue` | backend/app/core/pubsub.py:119-149 | Over any run, a ticket is consumed at most as often as it was issued, and every use redeems its last issue, within 30 seconds and with its payload |
| `Tickets.ConsumableIffFreshlyIssued` | backend/app/core/pubsub.py:139-149 | A ticket can be consumed exactly if its last event is an issue less than 30 seconds old, and not twice in a row |
| `Tickets.LiveTicketIsKept` | backend/app/core/pubsub.py:119-149 | Whatever else happens, a ticket keeps its payload and its deadline until it is consumed or runs out |
| `Tickets.Redis.IssueWebsocketTicket` | backend/app/api/v1/auth.py:515-544 | Up to five ids are tried while others act before each attempt; it fails exactly if each of the five was live at its attempt, and never overwrites a live ticket |
| `Limiter.CapsHold` | backend/app/api/v1/websockets.py:120-152 | Under every interleaving of single commands, with failures anywhere, open connections never exceed the cap per user or the global cap |
| `Limiter.CountersAreReservations` | backend/app/api/v1/websockets.py:120-171 | Each counter is the number of connections that hold a reservation in it: granted, in flight or leaked |
| `Limiter.ChargedToTheCaller` | backend/app/api/v1/websockets.py:120-134 | In every run a connection counts against the user named when it first arrived |
| `Limiter.BackToZeroIffNoLeak` | backend/app/api/v1/websockets.py:154-171 | Once every connection is done, the counters are zero exactly if no connection gave up while it held a reservation |
| `Limiter.RefusedIffFull` | backend/app/api/v1/websockets.py:134-147 | A connection of a user is refused at the user counter exactly when at least cap other connections that this user opened hold a reservation at its INCR, and at the total exactly when at least cap connections of anybody do, granted or not |
| `Limiter.ReleasesAreComplete` | backend/app/api/v1/websockets.py:162-171 | A completed release always returns the user reservation: the EXISTS before the DECR never says no |
| `Limiter.StepPreservesInv` | backend/app/api/v1/websockets.py:120-171 | Every command, arrival, close and failure keeps counters and caps |
| `RealtimeApi.Redis.TryAcquire` | backend/app/api/v1/websockets.py:120-152 | The method with arbitrary others at every await, the first included, and a failure before or after any command is one interleaving of the protocol in which it gives up only if a command raises, and its answer matches where it stands; undisturbed, it grants exactly if both counters are below their caps, and moves them by one or not at all |
| `RealtimeApi.Redis.Release` | backend/app/api/v1/websockets.py:154-171 | The release, likewise |
| `RealtimeApi.Redis.Live` | backend/app/api/v1/websockets.py:363-397 | A whole connection, charged to its user: refused, closed, or lost, where a failed handshake after the reservation leaks it; undisturbed, it leaves every counter as it found it |
| `RealtimeApi.PlayContinues` | backend/app/api/v1/websockets.py:120-171 | Running on from a reachable state reaches a reachable state |
| `Tracker.LinksAreGreedy` | backend/app/services/pipeline/tracking.py:139-166 | The links of adjacent frames are within reach, one-to-one and maximal, and a detection that missed a closer track lost it to one with at least its score |
| `Tracker.LinksAreHalfOptimal` | backend/app/services/pipeline/tracking.py:139-166 | Any other one-to-one set of links within reach has at most twice as many |
| `Tracker.LinkedByCentres` | backend/app/services/pipeline/tracking.py:74-77 | Two boxes of adjacent frames that share an id have centres at most the reach apart, two that are both left without a partner have centres farther apart, and a box is no nearer to a partnerless box of the frame before than to its own partner |
| `Tracker.OnlyCentresMatter` | backend/app/services/pipeline/tracking.py:74-77 | Resizing boxes about their own centres and shifting all of them together changes no assignment of ids |
| `Tracker.OutputPlaces` | backend/app/services/pipeline/tracking.py:163-179 | Each detection comes out at its place with the id it was assigned |
| `Tracker.IdsAreConsecutive` | backend/app/services/pipeline/tracking.py:134-179 | The ids of a batch are exactly 1 to k, and distinct within a frame |
| `Tracker.IdsNeverReturn` | backend/app/services/pipeline/tracking.py:134-179 | An id absent from one frame never comes back |
| `Tracker.OutputKeepsDetections` | backend/app/services/pipeline/tracking.py:134-181 | Every input detection is output exactly once, frame by frame in descending score |
| `Tracker.GreedyIsUnique` | backend/app/services/pipeline/tracking.py:146-153 | Without ties in distance the assignment does not depend on the order in which the candidate set is scanned |
| `Tracker.ByScoreSortsStably` | backend/app/services/pipeline/tracking.py:142 | The sort is a permutation, descending and stable |
| `Tracker.TrackDetections` | backend/app/services/pipeline/tracking.py:80-181 | The nested loops compute the greedy assignment by distance of centres and put each id on its detection; a single frame gets exactly -1, -2, and so on |
| `Tracker.Nearest` | backend/app/services/pipeline/tracking.py:144-153 | The scan finds a nearest track within reach if there is one |
| `AttendanceHistory.LedgerTellsEveryChange` | backend/app/services/attendance_service.py:220-240 | Over any history of sightings, evaluations, overrides, exports and administration, with any statement raising, committed evaluations of somebody and committed overrides correspond one to one and in order with the ATTENDANCE_EVALUATE and OVERRIDE_APPLY rows |
| `AttendanceHistory.CallIsAtomic` | backend/app/services/attendance_service.py:483-531 | Whichever statement raises, a call makes one change and its one row durable, or neither; only a successful evaluation of somebody or override makes one |
| `AttendanceHistory.EveryRowIsDetermined` | backend/app/services/attendance_service.py:133-242 | Over any such history every row is determined by the committed changes: its notes are those of its last override, its count and threshold those of its last evaluation, its status that of whichever came last, except that EXCUSED stays until the first override; and the counts are the sightings of the day until that evaluation |
| `AttendanceHistory.ExcusedIffNeverOverridden` | backend/app/services/attendance_service.py:170-179 | Through any changes a row is EXCUSED exactly if it was at the start and has never been overridden |
| `AttendanceHistory.SeenKeysAreSeen` | backend/app/services/attendance_service.py:152-165 | The students of a day with a group are those with a sighting of them in the window |
| `AttendanceHistory.CountsAreAcceptedSightings` | backend/app/services/attendance_service.py:78-118 | Over any history, what is counted for a student, course and day is what was counted before and the accepted sightings since |
| `AttendanceHistory.PresentIffSeenEnough` | backend/app/services/attendance_service.py:78-191 | From the camera to the verdict: after any history and a successful evaluation, a student who was not EXCUSED is PRESENT exactly if the sightings counted at the start and accepted since reach the threshold |
| `AttendanceHistory.OneSightingMakesPresent` | backend/app/services/attendance_service.py:78-191 | One accepted sighting and an evaluation of its day at threshold 1 make a student PRESENT who was not EXCUSED |
| `Attendance.OneDay` | backend/app/services/attendance_service.py:146-147 | The window of a date: every moment lies in exactly one UTC day |
| `Attendance.EvaluationSettlesTheDay` | backend/app/services/attendance_service.py:133-242 | Right after an evaluation each student recorded or seen that day, and no other, has a record with the counted sightings, the one threshold and the verdict that follows; EXCUSED are exactly those who were |
| `Attendance.EvaluatingAgainChangesNothing` | backend/app/services/attendance_service.py:170-191 | Re-evaluating without new sightings changes no status, count, note or threshold |
| `Attendance.ExcusedStaysExcused` | backend/app/services/attendance_service.py:170-179 | Through any number of evaluations EXCUSED stays and nothing else becomes it, notes survive, and any other status is the last verdict |
| `Attendance.OverrideSurvivesIff` | backend/app/services/attendance_service.py:476-516 | An override keeps its status through the next evaluation exactly if the sightings say the same, while the row goes on showing as overridden |
| `Attendance.ReasonRoundTrip` | backend/app/services/attendance_service.py:391-421 | The reason of an override, less surrounding Unicode whitespace, is read back from the notes as given, after any number of evaluations |
| `Attendance.StripIsTrim` | backend/app/services/attendance_service.py:448-475 | Stripping takes whitespace from both ends and nothing else |
| `Attendance.ScheduledIff` | backend/app/worker/tasks.py:97-125 | A course is scheduled exactly if it is active and has a sighting within the day, of anybody or nobody, or a record of the day |
| `Attendance.ScheduledIsEnough` | backend/app/worker/tasks.py:97-125 | Evaluating the scheduled courses gives the records that evaluating every active course gives, in any order and at any times; rows of failing courses and of other days are untouched |
| `AttendanceApi.Service.EvaluateListExport` | backend/app/services/attendance_service.py:133-424 | An evaluation followed by the listing and the export: all three show the same students, no exported status is unknown, and the listed thresholds and counts are the stored ones |
| `AttendanceApi.ViewsAgreeAfterEvaluation` | backend/app/services/attendance_service.py:244-424 | The same for any listing and export of the evaluated table |
| `AttendanceApi.Service.EvaluateClassAttendance` | backend/app/services/attendance_service.py:133-242 | The method, statement by statement on an open session: unknown and inactive courses are refused; every row is as specified with one ledger row when there is anybody to evaluate, and if any statement raises nothing is durable |
| `AttendanceApi.Service.EvaluateDailyAttendance` | backend/app/worker/tasks.py:128-188 | The loop: the failed courses are exactly those in which a statement raised, exactly the others are evaluated, evaluated plus failed is scheduled, and the ledger grows by exactly one ATTENDANCE_EVALUATE row per evaluated course with anybody in it, with their number, and by no other row |
| `AttendanceApi.Service.ApplyManualOverride` | backend/app/services/attendance_service.py:448-533 | The row of this student gets the status, the prefixed reason and the time and keeps its count and threshold, no other row changes, and one ledger row says from what to what, or nothing changes at all, whichever statement raises; which statuses, reasons, courses and students are refused, and how |
| `AttendanceApi.Service.ListSessionRecords` | backend/app/services/attendance_service.py:244-328 | One row per recorded student with a fresh count; the threshold of the first row, or the default |
| `AttendanceApi.Service.ExportDailyRoster` | backend/app/services/attendance_service.py:330-424 | One row per student recorded or seen, in order of student number, with verdict, average confidence, last sighting and override; one advisory EXPORT row, whose failing flush is swallowed while a failing commit is not |
| `AttendanceApi.Service.LogSighting` | backend/app/services/attendance_service.py:78-131 | An accepted sighting adds one to the count of its student, course and day, and its score if it has one, and to no other; a refused one changes nothing; which cameras, scores, students, courses and rooms are refused, and how |
| `AttendanceApi.GroupByStudent` | backend/app/services/attendance_service.py:152-165 | The grouped count: a group for exactly the students seen, with their number of sightings |
| `AttendanceApi.LastByStudent` | backend/app/services/attendance_service.py:368-383 | The grouped maximum of the timestamps |
| `AttendanceApi.AverageIsBetween` | backend/app/services/attendance_service.py:368-416 | The exported confidence lies between the least and the greatest score of the day, and is absent exactly if there is none |
| `AuditedWrites.LedgerMatchesChanges` | backend/app/services/base.py:37-139 | Over any sequence of creates, updates, deletes and consent decisions, one object each and failing at any statement, committed changes and committed ledger rows correspond one to one |
| `AuditedWrites.CallIsAtomic` | backend/app/services/base.py:78-128 | One call makes its change and its one row durable, or nothing |
| `AuditedWrites.CallMeans` | backend/app/services/base.py:78-128 | What each create, update, delete and consent decision does to the entity and to the ledger, and how it ends when the row is missing or taken or a statement raises |
| `AuditedWrites.RowsAreTheLastChanges` | backend/app/services/base.py:78-128 | Every entity is what its last recorded change made it |
| `AuditedWrites.ReuseIsSafeIffQueueEmpty` | backend/app/services/base.py:130-139 | On an object used before, a changing call keeps the correspondence exactly if no event was left queued |
| `AuditedWrites.LeavesEventIffUpdateMissed` | backend/app/services/base.py:92-115 | A call leaves its event behind exactly if it was an update with something to set of a row that does not exist, and did not fail |
| `AuditedWrites.LeftoverEventIsCommitted` | backend/app/services/student_service.py:81-93 | A concrete case: the ledger then reports an update that never happened |
| `AuditedWrites.CrudService.DrainPendingAudit` | backend/app/services/base.py:134-139 | The queue is emitted in order, one flush each, and stops at the first that raises |
| `AuditedWrites.CrudService.Update` | backend/app/services/base.py:92-115 | The method against its specification, with its three ways out |
| `AuditedWrites.CrudService.Emit` | backend/app/services/audit_service.py:323-351 | Strict failures are raised; advisory ones are not, but take back what the transaction had written |
| `AuditedWrites.CrudService.RecordConsent` | backend/app/api/v1/students.py:103-158 | The consent update and its row commit together or not at all |
| `GovernanceLog.GuardIffDescends` | backend/alembic/versions/20260824_0007_governance_hardening.py:52-91 | Without the purge flag the trigger passes a change exactly if the row survives with nothing but references forgotten, which is what keeps rows in every run |
| `GovernanceLog.NothingIsLost` | backend/alembic/versions/20260824_0007_governance_hardening.py:52-104 | Over any statements of any transactions but a purge, every committed ledger row stays and differs at most in a forgotten actor or attendance record |
| `GovernanceLog.LossNeedsAPurge` | backend/alembic/versions/20260824_0007_governance_hardening.py:52-151 | With purges: a committed row stays unless a purge with a cutoff after its creation took it, or an update or delete of that very row ran in the transaction of a purge |
| `GovernanceLog.RowsGoOnlyByPurge` | backend/alembic/versions/20260824_0007_governance_hardening.py:52-151 | If nobody updates or deletes ledger rows in the transaction of a purge, a row goes only by a purge whose cutoff is after its creation |
| `GovernanceLog.PurgeOpensTheGlass` | backend/alembic/versions/20260824_0007_governance_hardening.py:106-151 | Why that has to be said: the flag stays on until the transaction ends, and then a row that the purge spared can be deleted |
| `GovernanceLog.ForgettingSurvives` | backend/alembic/versions/20260824_0007_governance_hardening.py:54-81 | The trigger lets every anonymisation by a foreign key through |
| `GovernanceLog.TransactionsTakeEffect` | backend/alembic/versions/20260824_0007_governance_hardening.py:52-104 | An inserted row is there once its transaction commits and gone if it rolls back; a change or delete that the trigger refuses takes the whole transaction back, and an anonymisation goes through |
| `GovernanceLog.PurgeIsExact` | backend/alembic/versions/20260824_0007_governance_hardening.py:106-151 | A purge removes exactly the rows older than the cutoff; its own row survives, dated now, without actor, and with the number removed as its candidate_rows, exactly if the cutoff is not after now |
| `GovernanceLog.Session.PurgeBefore` | backend/alembic/versions/20260824_0007_governance_hardening.py:106-151 | The procedure: refuse NULL, log, disarm, delete row by row through the trigger, and report the count |
| `Retention.SweepIsExact` | backend/app/worker/tasks.py:456-520 | After a sweep the survivors are exactly the templates neither older than the cutoff nor of a student who withdrew or denied, and the counts of the new rows sum to the number removed |
| `Retention.SweepTellsWhy` | backend/app/worker/tasks.py:456-520 | The ledger gets a row for each reason that applies, with the number of templates older than the cutoff and the number of others whose student withdrew or denied |
| `Retention.SecondSweepIsIdle` | backend/app/worker/tasks.py:456-520 | A second sweep at the same cutoff changes nothing and writes no row |
| `Retention.Worker.DeleteBatch` | backend/app/worker/tasks.py:491-520 | In the session, the row with the number deleted is flushed before the delete; a failure at any statement ends the session and leaves templates and ledger as they were |
| `Retention.Worker.PurgeExpiredEmbeddings` | backend/app/worker/tasks.py:456-488 | The two batches, each failing at any statement; a failure in the second leaves exactly the first committed |
| `Geometry.DecodesIffOverlaps` | backend/app/services/pipeline/detection.py:63-97 | A row decodes exactly if its box overlaps the frame, to their intersection, inside the frame and of positive size |
| `Geometry.DecodesToTheOverlap` | backend/app/services/pipeline/detection.py:63-97 | The same in terms of the four numbers of the row: corners as they stand or a centre with half its size to either side, columns scaled by the width and rows by the height |
| `Geometry.FormatsAgree` | backend/app/services/pipeline/detection.py:65-85 | The same box decodes alike as corners or centre, in pixels or normalized |
| `Geometry.AutoresolveBboxFormat` | backend/app/services/pipeline/detection.py:132-183 | Corners unless strictly more rows have their last two numbers not above their first two than have; normalized exactly if no coordinate exceeds 1 in size |
| `Geometry.ParseDetections` | backend/app/services/pipeline/detection.py:186-275 | The detections are the decodable rows above the threshold in order, all inside the frame, decoded with one format per frame |
| `Geometry.RowsArePicked` | backend/app/services/pipeline/detection.py:220-273 | The rows of at least five columns with a score of at least the threshold and a box in the frame are picked, each once and in order, with frame, box, score and class, and no others |
| `Geometry.ParsedBoxCrops` | backend/app/services/pipeline/frame.py:124-142 | A parsed box never fails to crop: the window is non-empty, in range, holds the whole box, and is the least that does |
| `Geometry.IndicesInRange` | backend/app/services/pipeline/frame.py:112-121 | Resampling indices are in range before clipping, and the first and last pixel are kept |
| `Geometry.RoundIsNearest` | backend/app/services/pipeline/frame.py:112-121 | Rounding goes to the nearest integer, ties to the even one |
| `Geometry.IndicesNondecreasing` | backend/app/services/pipeline/frame.py:112-121 | Resampling indices never go back |
| `Geometry.ShrinkingRepeatsNone` | backend/app/services/pipeline/frame.py:112-121 | Shrinking takes no pixel twice |
| `Geometry.EveryPixelIsKept` | backend/app/services/pipeline/frame.py:112-121 | Enlarging leaves no pixel out |
| `Geometry.PadReachesNextMultiple` | backend/app/services/pipeline/frame.py:64-69 | Padding is below 32 and reaches the least multiple of 32 |
| `Geometry.PaddingMovesNothing` | backend/app/services/pipeline/frame.py:41-71 | Which channel counts are accepted, the padded shape, every pixel where it was and zeros elsewhere |
| `Pipeline.ProcessInferenceBatch` | backend/app/services/pipeline/orchestrator.py:229-393 | One result per tracked detection in the tracker order, no crop dropped, the number of distinct track ids and the number of live faces |
| `Pipeline.TrackedBelongs` | backend/app/services/pipeline/orchestrator.py:289-302 | Every tracked detection lies in the frame that its index names |
| `Pipeline.OneResultPerDetection` | backend/app/services/pipeline/orchestrator.py:263-391 | A batch reports each parsed detection exactly once |
| `GraphRename.RenamePreservesEvaluation` | scripts/setup_models.py:157-182 | Renaming a tensor throughout a flat graph to a name that does not occur in it changes nothing the graph computes, for every meaning of the operators and every input |
| `GraphRename.RenamesEverywhere` | scripts/setup_models.py:157-182 | Every occurrence of the old name in operands, results and declarations is replaced, and nothing else is touched |
| `GraphRename.NormalizePreservesFirstOutput` | scripts/setup_models.py:185-217 | After normalising there is one output, the same function of the input as the first one was |
| `GraphRename.InputNameHoldsIff` | scripts/setup_models.py:205-214 | The input keeps the name it was given exactly if the graph is not a bare pass-through |
| `GraphRename.CaptureChangesTheFunction` | scripts/setup_models.py:157-182 | Why the new name must be new |
| `GraphRename.Graph.RenameTensorValue` | scripts/setup_models.py:157-182 | The edit in place, against the renaming function |
| `GraphRename.Graph.NormalizeIo` | scripts/setup_models.py:185-217 | The normalisation in place, and which graphs are refused |
| `Retry.Client.RunWithRetries` | backend/app/infrastructure/triton/client.py:241-273 | At most max_retries + 1 attempts; all but the last timed out or failed with a retryable error within budget, the last gives the answer, and one that could be retried is not only for lack of attempts or budget; total sleep stays below the budget; only a timeout or an inference error escapes; when the cache is cleared |
| `Retry.SleepsAreGeometric` | backend/app/infrastructure/triton/client.py:254-267 | k sleeps total backoff * (2^k - 1) |
| `Retry.Client.AssertModelReady` | backend/app/infrastructure/triton/client.py:84-112 | A model is cached only after the server confirmed it; after a retried check it is cached although the server flag is cleared |
| `Retry.Client.AssertServerReady` | backend/app/infrastructure/triton/client.py:62-82 | A cached yes is believed, otherwise both checks must say yes |
| `Poses.CompletedIsHeldPairs` | frontend/src/pages/enrollLogic.js:30-60 | The completed count is the smaller of 3 and the sum over maximal runs of ok previews of half the run length rounded down; also the pose asked for and the streak |
| `Poses.EachPoseCompletesOnce` | frontend/src/pages/enrollLogic.js:41-60 | Each pose up to the completed count completes exactly once, and no other |
| `Poses.OneAtATimeInOrder` | frontend/src/pages/enrollLogic.js:41-60 | A preview completes the pose that was asked for or none, and a finished machine does not move |

## Left out

- Redis key expiry in the limiter: on expiry the code deliberately resets a counter, so the caps are stated without it.
- Torn journal lines: an append is one step; LoadJournal covers lines that are corrupt when they are read.
- Two concurrent first enrolments of one pose: no row exists yet that the row lock could hold, and the code does not exclude it.
- A commit that is durable although it raises: a failing commit is taken to have no effect.
- Clock skew between application processes and Redis: one clock serves both; the delay between computing a time to live and writing the entry is modelled.
- The per-process lock of the limiter: dropped, which only adds interleavings.
- A logout as a whole: its two revocations are independent requests, and its advisory ledger row is covered by Emit.
- Floating-point rounding: coordinates, distances, scores and times are exact reals; the rounding of published values is not modelled, nor the four decimals the export writes its confidence with.
- Class scores, softmax and the scoring of a detector row: a given function of the row.
- The outputs of the face models: one liveness value and one match per face; a response of another size, which raises, is not modelled.
- Extraction retries of the importer: a batch that loses its inference server stops at that row.
- The reject report, coverage queries and manifest parsing of the importer: counts of rejected rows are modelled, their files are not.
- Pub/sub fan-out, message iteration and the broadcast loop: delivery, not state.
- Graphs nested in nodes: the renaming does not visit them, so the graphs are flat.
- The ledger columns as such: the trigger's comparison is by column groups; the action vocabulary and the sanitising of summaries are settled by reading one branch.
- Setting the purge flag by hand: a transaction that does so disarms the trigger without a purge, as the database allows.
- Vector search, routing, cookies, role checks, settings parsing, schemas and user-interface code.
- Listing and export under concurrent writes: each runs on one snapshot.
- Names, departments and other plain columns of the listing and the export; that every exported student exists is the foreign keys' doing.
- Failing reads of the listing: it writes nothing, so they leave nothing behind.
- AttendanceApi.Service.EvaluateListExport: composes the three calls without failures and without other writes in between; each of them alone is proved on any state and, but for the listing, with failures.
- Limiter.RefusedIffFull: says when a connection is refused, not that a refused one could not have been served; reservations that are about to be backed out count against others.
- Attendance.OverrideSurvivesIff: does not claim that overrides survive evaluation, because the evaluator overwrites them.
