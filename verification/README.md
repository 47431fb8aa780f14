# Lectern protocol models

Dafny models of the hand-written protocols and algorithmic cores of Lectern, and proofs of what they
promise over whole runs.

| file | what it models |
|---|---|
| `Tus.dfy`, `TusServer.dfy`, `TusResume.dfy` | the tus upload resource: session hash, upload row, cancellation marker and S3 multipart upload, under lost, unacknowledged and retried calls; when a complete upload can still be finished |
| `RestoreStorage.dfy`, `RestoreSession.dfy` | the storage side of a full-replacement restore: rollback journal, replacement, compensation, cleanup |
| `Dump.dfy`, `TopologicalSort.dfy`, `SortedOrder.dfy`, `RestoreTables.dfy` | the database side: table order and foreign keys, the recursive sort and the order it produces, nulled-then-updated pull-request references |
| `LoginChallenge.dfy`, `PasswordReset.dfy`, `RefreshRotation.dfy` | the credential protocols: atomic scripts, generation binding, one-winner rotation with whole-second lifetimes |
| `AdminAuthority.dfy` | role changes, deletions, recovery and bulk actions as interleaved transactions around one advisory lock |
| `StorageGc.dfy` | staging, submission, orphan collection and pruning of content-addressed objects |
| `MoodleQuiz.dfy`, `MoodleRoundTrip.dfy`, `DirectoryPaths.dfy`, `ZipEntries.dfy`, `SearchMix.dfy`, `KeysetPaging.dfy`, `LikeCounter.dfy`, `EdgeCache.dfy`, `LineLimit.dfy` | the algorithmic cores |

External stores are values: Redis is a set of maps changed by atomic scripts, PostgreSQL is rows plus
the locks a transaction holds, S3 is a map from keys to bytes. Every call to one carries an outcome
(`Prelude.Io`): done, lost, or applied but never acknowledged. That is how crashes, timeouts and
retries enter. A protocol is a function from a world and a step to a world, theorems are about every
sequence of steps, and where the source changes state in place a class has the same fields and its
methods are proved to compute that function.

## What the proofs found

Several promises hold only under a condition, which is proved to be exact.

- **tus resume.** A complete session that nobody cancelled is finished by a later HEAD or empty PATCH,
  in every run, exactly when no refused completion has aborted its multipart upload, only its last part
  is below 5 MiB, and the cleanup job has not deleted its object before the completion was recorded
  (`TusResume.ResumableIff`). Two runs fail. S3 refuses the completion for good, the abort goes through
  and the delete of the session is lost (`TusResume.AbortedSessionCannotResume`). Or the completion
  succeeds, its record is lost, and cleanup deletes the object while the row is still pending: the job's
  scan for old quarantine objects consults no row and takes its two-hour cutoff later than the expiry of
  rows does (`TusResume.SweptSessionCannotResume`). The 24-hour multipart sweep cannot end a live
  session, because the same job first expires every row still pending two hours after its creation,
  however active the session is; and that is final (`TusResume.ExpiryEndsSession`,
  `TusResume.EndedIsFinal`).
- **Refresh rotation.** The lifetime written into the consumed marker is computed before the SET
  reaches Redis. Two requests can both rotate one token if and only if the later one takes longer on
  the way than the earlier one did, and then only in the last second of the token's life
  (`RefreshRotation.TwoWinnersIff`, `RefreshRotation.LaterWinnerIsSlower`).
- **Replay revocation.** A replay revokes the session for one refresh lifetime. A racing winner that
  issues its successor after the replay gives it a later expiry: the successor is refused while the
  revocation lasts and can be rotated afterwards exactly when the second it was issued in began a second
  or more after the replay (`RefreshRotation.ReplayRevokesFamilyIff`,
  `RefreshRotation.SlowWinnerEscapes`).
- **Staged objects.** Collection and pruning are safe against staging, but a pull-request submission
  consumes a claim without the key's lock. No live row ever refers to a deleted object if submissions
  commit before the claims they consumed expire, and also, however late they are, if Redis loses no
  reference and answers every re-check; with neither there is a run that loses an object
  (`StorageGc.SafeIffPunctual`, `StorageGc.LateSubmissionLosesItsObject`).
- **Approval window.** Cleanup also deletes consumed claims once their 48-hour staging period is over,
  and approval needs the consumed claim. In every run a contribution of a generated file can be
  approved until the claim it consumed expires, and for any later time there is a run in which it is
  still open and can no longer be approved, its object safe all along (`StorageGc.ApprovalWindowIff`,
  `StorageGc.ContributionOutlivesItsClaim`).
- **Reply order.** Restore sorts annotations by `thread_id` only. A closed and acyclic archive can be
  restored exactly when every reply answers an annotation of a thread that begins earlier in the dump,
  or an ancestor of its own; an archive that lists a reply before the annotation it answers, both in
  one thread, is refused (`RestoreTables.RestoreIff`, `RestoreTables.ReplyOrderCanFail`).
- **Renamed duplicates in a ZIP.** The suffix goes before the last dot of the whole path. A duplicate
  whose own name has no dot therefore moves to another folder: of two files `dir/notes` the second
  becomes `_1.dir/notes` (`ZipEntries.DuplicateStaysInFolderIff`, `ZipEntries.DuplicateLeavesItsFolder`).
- **Line limit.** The one-pass counter also rejects a text of exactly the limit whose last line is
  terminated, such as one terminated line at a limit of one (`LineLimit.LimitIff`,
  `LineLimit.TerminatedLineIsRejected`).
- **Snapshot cleanup.** A rollback copy that took effect but was reported as failed is not among the
  captured keys, so its journal object survives (`RestoreSession.Restore.Snapshot`,
  `RestoreSession.UnackedCopyIsLeft`).
- **Quiz round trip.** A quiz comes back from Moodle XML unchanged exactly when its titles are distinct
  and hold, no chapter is empty and every text survives stripping; or when copies of one question trade
  places; or when it is the one empty chapter that stands for no questions. A title holds if it is read
  as itself, or if it and all before it are read as nothing and the names of its questions yield it.
  The questions of a chapter whose title reduces to nothing otherwise join the chapter before it
  (`MoodleRoundTrip.RoundTripIff`, `MoodleRoundTrip.TradeGoesUnnoticed`,
  `MoodleRoundTrip.EmptyTitleMerges`).
- **Checksum header.** The tus checksum extension asks for the refusal of an algorithm that is not
  offered. The code compares a checksum exactly when the header is `sha256`, one space and a text
  without spaces, and ignores any other, so a chunk sent with an MD5 checksum is accepted whatever its
  bytes are (`TusServer.ChecksumRefusedIff`, `TusServer.UnknownAlgorithmIsAccepted`).

## Model

| member | source | states |
|---|---|---|
| `Tus.ManifestTheorem` | api/app/routers/tus.py:551-657 | in every run with crashes and retries a live session's parts are 1..n, S3 holds the recorded bytes under them while the multipart upload is open, their total is the offset and at most the length, only a completing part is below the minimum, and offset equals length exactly when finalizing or completed |
| `Tus.RunKeepsInv` | api/app/routers/tus.py:98-274 | the invariant tying hash, row, marker, S3 and history survives every step |
| `Tus.EnqueueTheorem` | api/app/routers/tus.py:178-274 | every queued job has the upload's one job id and size, follows a verification of exactly the recorded bytes, and never follows the cancelled flag; nothing is recorded after verification |
| `Tus.CancelledIsTerminal` | api/app/routers/tus.py:111-135 | once the cancelled flag has been written HEAD and PATCH change nothing |
| `Tus.UploadsTheFile` | api/app/routers/tus.py:517-657 | for a client that sends its file's bytes at the offsets it names, whatever is lost or retried, the recorded bytes are a prefix of the file and a completed object is the file |
| `TusResume.ResumableIff` | api/app/routers/tus.py:459-498 | in every run, over healthy stores, a HEAD or an empty PATCH finishes and enqueues a complete, uncancelled session exactly when no refused completion has aborted its multipart upload, only its last part is below 5 MiB and its object was not swept before the completion was recorded; otherwise the session is discarded and the row failed. A first job so queued finds the uploaded file exactly when the object was not swept |
| `TusResume.ResumableUnlessLost` | api/app/config.py:157 | with the default chunk minimum such an abort and such a sweep are all that can be in the way |
| `TusResume.AbortedSessionCannotResume` | api/app/routers/tus.py:138-163 | the concrete run: the completion is refused, the abort applied and the delete lost; the session looks complete and cannot be resumed |
| `TusResume.SweptSessionCannotResume` | api/app/workers/cleanup_uploads.py:304-329 | the concrete run in which nothing was refused: the completion succeeds, its record is lost and the object scan deletes the object of the pending row |
| `TusResume.RunKeeps` | api/app/routers/tus.py:138-274 | in every run a live session has its multipart upload or its object unless a refused completion aborted the one or cleanup deleted the other |
| `TusResume.EndedIsFinal` | api/app/routers/tus.py:111-135 | once the row has failed or been cancelled before any job was queued, no chunk is recorded and no job queued ever after |
| `TusResume.ExpiryEndsSession` | api/app/workers/cleanup_uploads.py:136-147 | the expiry of a pending row ends its session whatever happens next: HEAD and PATCH answer Conflict |
| `Tus.NextFrame` | api/app/routers/tus.py:551-657 | a step leaves the recorded chunks alone unless it is a PATCH at exactly the recorded offset, which may append its data |
| `Tus.CompletionPublishesChunks` | api/app/core/storage/multipart_completion.py:140-199 | a verified completion leaves exactly the concatenated chunks as the object |
| `TusServer.TusResource.ReadBody` | api/app/routers/tus.py:517-549 | the streaming read accepts exactly the bodies within the limits and returns their bytes |
| `TusServer.TusResource.CompleteVerified` | api/app/core/storage/multipart_completion.py:140-199 | completes, probes an ambiguous outcome and classifies it as the specification does |
| `TusServer.TusResource.CleanupFailedCompletion` | api/app/routers/tus.py:138-163 | aborts, drops the session and fails the row, as specified for every outcome of each call |
| `TusServer.TusResource.Finalize` | api/app/routers/tus.py:166-274 | completes, persists and enqueues as specified, rechecking cancellation in between |
| `TusServer.TusResource.Head` | api/app/routers/tus.py:459-498 | the HEAD request is the specification's step |
| `TusServer.TusResource.Patch` | api/app/routers/tus.py:676-745 | preflight, body and checksum, then the locked PATCH; a refused or mismatched request changes nothing |
| `TusServer.ChecksumRefusedIff` | api/app/routers/tus.py:538-549 | a checksum is compared exactly when the header is `sha256`, one space and a text without spaces |
| `TusServer.UnknownAlgorithmIsAccepted` | api/app/routers/tus.py:538-549 | a chunk sent with an MD5 checksum is accepted and completes the upload, whatever its bytes hash to |
| `TusServer.TusResource.PatchLocked` | api/app/routers/tus.py:551-670 | the locked PATCH is the specification's step |
| `TusServer.TusResource.Record` | api/app/routers/tus.py:610-657 | stores a part and then advances the session; a crash in between leaves the session at the old offset |
| `TusServer.TusResource.Delete` | api/app/routers/tus.py:757-806 | termination is the specification's cancellation step |
| `RestoreStorage.CompensationIsExact` | api/app/services/backup.py:679-699 | after any replacement calls with any outcomes, compensation whose own calls succeed leaves storage exactly as before the restore |
| `RestoreStorage.ReplacementIsContained` | api/app/services/backup.py:722-782 | replacement calls touch only managed keys and leave the journal intact |
| `RestoreStorage.CopyBackRestores` | api/app/services/backup.py:679-699 | copying the journal back gives every managed key its old bytes |
| `RestoreStorage.CleanedEqualsBefore` | api/app/services/backup.py:657-677 | restored keys and an emptied journal together are the storage as it was |
| `RestoreSession.Restore.CaptureAll` | api/app/services/backup.py:701-711 | snapshots every managed object in order and stops at the first failure; the failed copy is in the journal exactly when it had taken effect |
| `RestoreSession.Restore.Snapshot` | api/app/services/backup.py:701-711 | succeeds exactly when every copy does; a failed snapshot leaves storage unchanged unless its failing copy had taken effect |
| `RestoreSession.UnackedCopyIsLeft` | api/app/services/backup.py:701-711 | the concrete failed snapshot that leaves a journal object behind |
| `RestoreSession.Restore.RollbackStorage` | api/app/services/backup.py:679-699 | a second call changes nothing; a call that succeeds leaves storage exactly as before; it succeeds when its own calls do |
| `RestoreSession.Restore.CleanupRollbackSnapshot` | api/app/services/backup.py:657-677 | deletes the journal once and reports whether all of it went |
| `RestoreSession.Restore.UploadAll` | api/app/services/backup.py:722-760 | uploads the archive over whatever is there |
| `RestoreSession.Restore.DeleteStale` | api/app/services/backup.py:760-782 | removes what the archive does not contain, so that the managed namespace is the archive |
| `RestoreSession.Restore.Replace` | api/app/services/backup.py:722-782 | either the managed namespace is the archive, or compensation ran and, if its calls succeeded, storage is as before |
| `RestoreSession.Restore.Run` | api/app/services/backup.py:639-782 | the whole storage side: when the callbacks are registered, that a failed replacement with healthy compensation leaves storage as before, and the state the later commit or rollback callback starts from |
| `RestoreSession.Restore.InTransaction` | api/app/services/backup.py:713-720 | with its callback: a committed restore replaces the managed namespace and nothing else, a rolled back one changes nothing, and a failed one loses no object |
| `TopologicalSort.SortIsPermutation` | api/app/services/backup.py:408-428 | for any links, cycles, self-loops and dangling parents included, the sort returns a permutation of rows with distinct keys |
| `TopologicalSort.SortOrdersIffAcyclic` | api/app/services/backup.py:408-428 | the result lists every parent before its children exactly when the links have no cycle longer than one |
| `TopologicalSort.SortKeepsSorted` | api/app/services/backup.py:408-428 | a list that is already parents-first comes back unchanged |
| `SortedOrder.SortedOrderIff` | api/app/services/backup.py:408-428 | of two rows the one whose thread begins earlier in the dump is listed first, and of two that begin at one place the ancestor |
| `SortedOrder.RepliesSortedIff` | api/app/services/backup.py:408-428 | for acyclic rows, replies come out after their targets exactly when the dump orders their threads so |
| `SortedOrder.VisitIsPath` | api/app/services/backup.py:414-424 | one visit lists the unvisited ancestors of the row from the root down |
| `TopologicalSorter.Sort` | api/app/services/backup.py:408-428 | the recursive, state-changing sort computes that list |
| `TopologicalSorter.Sorter.Visit` | api/app/services/backup.py:414-424 | one visit marks and emits as specified, and terminates for any links |
| `Dump.OrderRespectsForeignKeys` | api/app/services/backup.py:60-98 | every table comes after the tables its foreign keys name |
| `RestoreTables.RestoreIff` | api/app/services/backup.py:626-637 | restoring a dump succeeds exactly when it is closed under its references, its sorted self-references are acyclic and every reply answers an annotation whose thread begins earlier in the dump, an ancestor or itself; the database then holds exactly the dumped rows |
| `RestoreTables.InsertAllIff` | api/app/services/backup.py:486-488 | inserting rows in order succeeds exactly when each finds its references among the rows already there, and adds exactly those rows |
| `RestoreTables.RestorePullRequestsIff` | api/app/services/backup.py:462-484 | pull requests restore exactly when their cross-references name dumped rows, for any reference graph, cycles included |
| `RestoreTables.RestoreOrdinaryIff` | api/app/services/backup.py:452-488 | any other table restores exactly when closed, acyclic and dumped with its replies in thread order |
| `RestoreTables.OrderedAnnotationsRestore` | api/app/services/backup.py:103-108 | annotations dumped in thread and reply order restore |
| `RestoreTables.ReplyOrderCanFail` | api/app/models/annotation.py:41-46 | a closed, acyclic archive that cannot be restored because the sort ignores `reply_to_id` |
| `RestoreTablesSession.Session.RestorePullRequests` | api/app/services/backup.py:462-484 | null, insert, then update, on a session that the first error aborts |
| `RestoreTablesSession.Session.RestoreTable` | api/app/services/backup.py:452-488 | restores one table as specified |
| `RestoreTablesSession.Session.Restore` | api/app/services/backup.py:626-637 | wipes in reverse order and reloads in insertion order as specified |
| `LoginChallenge.RedeemedOnce` | api/app/services/auth.py:52-101 | in every interleaving and whichever keys Redis loses, a challenge's code and link are redeemed at most once between them, and at most one login results |
| `LoginChallenge.SupersededCodeRefused` | api/app/services/auth.py:65-80 | only the latest, unredeemed challenge's own code is ever redeemed |
| `LoginChallenge.SupersededLinkRefused` | api/app/services/auth.py:82-101 | only the latest, unredeemed challenge's own link is ever redeemed |
| `LoginChallenge.AcceptedIsCurrent` | api/app/routers/auth.py:340-360 | a login the handler accepts was issued and stored at the generation the account has now |
| `LoginChallenge.CodeExactWhileKeysLive` | api/app/services/auth.py:440-462 | while no key is lost, the code script answers with the bound generation exactly for the latest challenge's code, unredeemed |
| `LoginChallenge.LinkExactWhileKeysLive` | api/app/services/auth.py:470-492 | and the link script exactly for its link |
| `LoginChallenge.BumpKillsEarlierChallenges` | api/app/routers/auth.py:375-387 | once the generation moves on, no challenge issued before is accepted again, not even one already redeemed and waiting for its handler |
| `LoginChallengeStore.Store.StoreLoginChallenge` | api/app/services/auth.py:381-402 | issuing supersedes the previous link and binds all four keys |
| `LoginChallengeStore.Store.ConsumeVerificationCode` | api/app/services/auth.py:440-462 | the code script's effect and reply |
| `LoginChallengeStore.Store.ConsumeMagicToken` | api/app/services/auth.py:470-492 | the read of the link and the link script's effect and reply |
| `PasswordReset.OneWinnerPerGeneration` | api/app/services/auth.py:776-789 | of all capabilities issued to an account at one generation at most one ever resets its password |
| `PasswordReset.ResetIsCurrent` | api/app/services/auth.py:776-789 | a reset that succeeds was issued to that account at its current generation |
| `PasswordReset.SupersededNeverConsumed` | api/app/services/auth.py:116-131 | a capability is consumed only if it is the account's latest and unconsumed, and yields its own account and generation |
| `PasswordReset.ResetKillsTheOthers` | api/app/routers/auth.py:604-625 | a successful reset kills every other capability issued to the account, consumed ones included |
| `PasswordResetStore.Store.StoreToken` | api/app/services/auth.py:311-331 | storing supersedes the account's previous capability |
| `PasswordResetStore.Store.ConsumeToken` | api/app/services/auth.py:334-367 | the read of the account and the consuming script's effect and reply |
| `RefreshRotation.OneWinner` | api/app/routers/auth.py:687-702 | over the token's whole life, at most one of any number of racing requests rotates it, when none takes longer to reach Redis than those before it |
| `RefreshRotation.TwoWinnersIff` | api/app/services/auth.py:671-690 | two requests with given delays can both rotate one token if and only if the second is slower |
| `RefreshRotation.LaterWinnerIsSlower` | api/app/services/auth.py:671-690 | a second winner is slower than some winner before it and its SET lands after the last second begins |
| `RefreshRotation.ReplayRevokesFamilyIff` | api/app/services/auth.py:693-699 | no token issued to the session before the replay is rotated by a later request; a successor issued after it is refused while the revocation lasts and can be rotated afterwards exactly when it was issued in a second that began at least one second after the replay |
| `RefreshRotation.SlowWinnerEscapes` | api/app/routers/auth.py:687-731 | the concrete race whose winner issues such a successor |
| `RefreshStore.Store.ConsumeTokenOnce` | api/app/services/auth.py:671-690 | wins exactly when the lifetime is positive and no marker lives, and then sets it |
| `RefreshStore.Store.Refresh` | api/app/routers/auth.py:675-702 | the handler: revoked, expired, replayed (revoking the family) or rotated |
| `AdminAuthority.AdminRemains` | api/app/services/auth.py:872-983 | in every interleaving of transactions, from bootstrap on a live administrator is always committed |
| `AdminAuthority.CommittedByLiveAdmin` | api/app/services/auth.py:892-939 | a request that changed anything commits while its actor is, in the committed table, a live administrator at the generation of its admission |
| `AdminAuthority.LastAdminIffSelf` | api/app/services/auth.py:942-983 | an authorized administrator is refused a removal exactly when it is their own and nobody else is left |
| `AdminAuthority.RunKeepsInv` | api/app/routers/admin.py:111-220 | the invariant over committed rows, the lock holder's view and its row locks |
| `AdminAuthority.SystemKeepsInv` | api/app/services/user.py:510-556 | self-deletion, purge, recovery, seeding and first setup keep it |
| `AdminBulk.BulkIsPointwise` | api/app/routers/admin_operations.py:199-247 | with a live actor a bulk request never fails, treats each account as a single request on the original table would, and touches no other row |
| `AdminBulk.BulkNeedsAuthority` | api/app/routers/admin_operations.py:199-210 | without authority it changes nothing, and is refused unless it names nobody but the actor |
| `AdminBulk.DedupeIsUnique` | api/app/routers/admin_operations.py:46-47 | de-duplication keeps every id once |
| `AdminBulk.Session.BulkUsers` | api/app/routers/admin_operations.py:184-255 | the loop computes that report, and rolls everything back on a refusal |
| `StorageGc.SafeIffPunctual` | api/app/workers/cleanup_uploads.py:450-463 | among the runs with a given lateness of submissions, with or without lost references, no committed row ever refers to a deleted object if and only if submissions commit before their claims expire or Redis keeps its references |
| `StorageGc.PunctualRunsAreSafe` | api/app/routers/qcm.py:368-409 | punctual runs: live keys have objects and a key found dead under the lock stays dead, however often Redis loses references |
| `StorageGc.LosslessRunsAreSafe` | api/app/core/storage/liveness.py:158-166 | and so in runs in which Redis keeps its references and answers, however late submissions commit |
| `StorageGc.LateSubmissionLosesItsObject` | api/app/services/pr.py:1836-1932 | the concrete run that loses an object for any lateness: the claim expires under an open submission and Redis has lost the reference |
| `StorageGc.ApprovalLostIff` | api/app/workers/cleanup_uploads.py:176-181 | no other step takes a submitted key's approval away than the cleanup of its last consumed claim |
| `StorageGc.SubmittedIsApprovable` | api/app/services/pr.py:245-262 | in every run in which none of its own consumed claims was cleaned up, a submitted key has the consumed claim that approval demands |
| `StorageGc.ApprovalWindowIff` | api/app/workers/cleanup_uploads.py:176-181 | in every run a submitted key can be approved until its claim expires, and no longer |
| `StorageGc.ContributionOutlivesItsClaim` | api/app/workers/cleanup_uploads.py:176-181 | for any time after the expiry, a concrete run in which a timely submission keeps its object and has lost its approval |
| `StoragePrune.PruneIsARun` | api/app/routers/admin_storage.py:154-172 | a prune request, whatever others do between its keys, leaves the world that a run of lock, re-check, delete and unlock steps leaves |
| `StoragePrune.PruneKeepsSafe` | api/app/routers/admin_storage.py:154-172 | so a stale candidate list costs no live row its object, under the same condition as collection |
| `StoragePrune.PruneKeepsLive` | api/app/routers/admin_storage.py:154-172 | on a quiet system exactly the listed keys that are neither live nor referenced go, and every key is counted |
| `StoragePrune.Bucket.Prune` | api/app/routers/admin_storage.py:131-184 | refuses the list untouched if any key is outside the prefixes, else deletes and counts as specified |
| `MoodleQuiz.EscapeRoundTrip` | api/app/routers/qcm.py:578-582 | an XML reader gets back the text that was escaped |
| `MoodleQuiz.EscapeIsSafe` | api/app/routers/qcm.py:578-582 | no markup character is left bare |
| `MoodleQuiz.ParseOfExport` | api/app/routers/qcm.py:457-625 | parsing the export of any quiz within the limits gives one chapter for each title in force, in order of first use, with the surviving questions read under it in their order |
| `MoodleQuiz.TitlesByFirstUse` | api/app/routers/qcm.py:562-566 | the chapters are in the order in which their titles are first used |
| `MoodleQuiz.GroupedCounts` | api/app/routers/qcm.py:558-560 | grouping neither loses nor duplicates a question |
| `MoodleQuiz.AddGroups` | api/app/routers/qcm.py:558-560 | the insertion-ordered dictionary computes that grouping |
| `MoodleRoundTrip.RoundTripIff` | api/app/routers/qcm.py:457-625 | any quiz within the limits comes back unchanged exactly when it is tidy, every title is read as itself or named by its questions, and every text survives; or copies of a question trade places; or it is the empty default chapter |
| `MoodleRoundTrip.EmptyTitleMerges` | api/app/routers/qcm.py:471-476 | a two-chapter quiz whose second title is empty comes back as one chapter |
| `MoodleRoundTrip.TradeGoesUnnoticed` | api/app/routers/qcm.py:488-501 | such a trade: two copies of a question are read in each other's chapter and the quiz is the same again |
| `MoodleRoundTrip.PlainQuizRoundTrip` | api/app/routers/qcm.py:457-625 | a quiz with distinct plain titles, plain texts and no empty chapter comes back unchanged |
| `MoodleQuiz.TitlesInUse` | api/app/routers/qcm.py:562-570 | the titles of the chapters are exactly those some surviving question is filed under, each once, and none is empty |
| `MoodleQuiz.AddKeepsTidy` | api/app/routers/qcm.py:558-560 | a question joins the end of the chapter of its title and leaves every other chapter as it was, or opens a chapter at the end |
| `MoodleQuiz.QuestionSurvives` | api/app/routers/qcm.py:503-556 | reading an exported question gives its stripped texts, its non-empty answers and their correct flags |
| `MoodleQuiz.GenerateMoodleXml` | api/app/routers/qcm.py:585-625 | the nested export loops emit exactly the elements whose reading the round trip is about |
| `MoodleQuiz.ParseMoodleXml` | api/app/routers/qcm.py:457-570 | the parsing loop, with its running category and total, computes the regrouping fold and stops at the question limit |
| `MoodleQuiz.ReadAnswers` | api/app/routers/qcm.py:514-537 | the answer loop keeps the first non-empty answers up to the limit |
| `DirectoryPaths.DirectoryRoundTrip` | api/app/services/directory.py:520-552 | resolving the path built for a directory returns it |
| `DirectoryPaths.MaterialRoundTripIff` | api/app/services/directory.py:607-660 | resolving a material's path returns it exactly when no sibling directory has its slug, and else that directory |
| `DirectoryPaths.PrefetchIsChild` | api/app/services/directory.py:621-631 | the prefetched map answers every lookup of the walk |
| `DirectoryPaths.PartsOfJoin` | api/app/services/directory.py:187-192 | splitting a joined path gives back its slugs |
| `DirectoryPaths.GetDirectoryPath` | api/app/services/directory.py:160-192 | the climb to the root collects the slugs from the root down |
| `DirectoryPaths.ResolveBrowsePath` | api/app/services/directory.py:607-660 | the prefetching walk equals looking up one segment at a time |
| `ZipEntries.BuildEntries` | api/app/services/directory.py:906-932 | one entry per row in row order, pairwise distinct and all valid, each under the first free name; refused exactly when a row's own name is invalid |
| `ZipEntries.FreeName` | api/app/services/directory.py:908-917 | the suffix loop terminates with the first free candidate |
| `ZipEntries.CandidateStaysValid` | api/app/services/directory.py:792-806 | every suffixed name is valid although only the original was checked |
| `ZipEntries.CandidatesDistinct` | api/app/services/directory.py:912-915 | different suffixes give different names |
| `ZipEntries.DuplicateStaysInFolderIff` | api/app/services/directory.py:912-915 | a renamed duplicate stays in its folder exactly when it is in none or its own name has a dot |
| `ZipEntries.DuplicateLeavesItsFolder` | api/app/services/directory.py:906-932 | the entries built for two files `dir/notes` are `dir/notes` and `_1.dir/notes` |
| `SearchMix.Scan` | api/app/services/search.py:201-261 | the batched scan returns exactly the live hits of each wanted index's first 1000, in ranking order |
| `SearchMix.Mix` | api/app/services/search.py:108-171 | the two-index loop, with its three fallback branches, takes turns until both lists are used up |
| `SearchMix.MixIsFairMerge` | api/app/services/search.py:108-171 | the mix merges both lists, each in its own order but for one promoted exact match, prefixes differ by at most one until a list runs out, and an exact match comes first |
| `SearchMix.MixOpening` | api/app/services/search.py:142-147 | the kind that alone has an exact match opens the mix, otherwise the better score, with directories winning ties |
| `SearchMix.PromoteIsPermutation` | api/app/services/search.py:123-137 | putting the promoted hit back where the first exact match was gives the ranking again |
| `SearchMix.InterleaveIsMerge` | api/app/services/search.py:148-170 | each kind appears in full and in order |
| `SearchMix.InterleaveIsFair` | api/app/services/search.py:148-170 | the kinds take turns |
| `SearchMix.PagesConcatenate` | api/app/services/search.py:335-337 | consecutive pages concatenate to the whole mix |
| `KeysetPaging.FollowVisitsAll` | api/app/services/annotation.py:100-125 | a client that reaches the null cursor has seen every row present throughout exactly once, whatever was inserted or deleted in between |
| `KeysetPaging.FollowDescends` | api/app/routers/admin.py:62-90 | the pages form one strictly descending list, so nothing is repeated |
| `KeysetPaging.FollowStatic` | api/app/services/annotation.py:100-125 | on an unchanged table the client reads exactly the rows below its cursor, and finishes exactly when its requests cover them |
| `LikeCounter.CounterIsExact` | api/app/services/material.py:419-455 | in every interleaving the counter is the number of like rows, the guard never drops a decrement, and a toggle flips only its own user's membership |
| `LikeCounter.NextKeepsInv` | api/app/services/directory.py:716-754 | the invariant over committed rows, the counter's row lock and toggles in flight |
| `EdgeCache.CacheIsInvisible` | worker/src/handler.ts:258-353 | after any requests, deferred writes and evictions the handler with a cache answers exactly as the one without |
| `EdgeCache.EntriesAreShared` | worker/src/handler.ts:306-342 | every entry is a complete, decompressed response that depends on no token |
| `EdgeCache.TokensShareTheObject` | worker/src/handler.ts:92-116 | two tokens for one object get the same status and body, and differ at most in the headers a token decides, which come from the token presented |
| `EdgeCache.RangeAnswer` | worker/src/handler.ts:272-336 | a valid range gets the slice with its Content-Range, the whole decompressed object when it is stored compressed, or an error when storage ignores the range |
| `EdgeCache.ValidRangeIff` | worker/src/handler.ts:118-123 | the range check accepts exactly the single ranges of RFC 9110, section 14.1.2 |
| `EdgeCache.AsciiFallback` | worker/src/handler.ts:86-90 | the fallback name is printable ASCII without quotes or backslashes, of the same length |
| `EdgeWorker.Worker.HandleFile` | worker/src/handler.ts:227-353 | the request handler, with or without a cache, computes those answers and that entry |
| `LineLimit.LimitIff` | api/app/routers/materials.py:161-182 | the counter agrees with counting the split lines except for a text of exactly the limit whose last line is terminated |
| `LineLimit.TerminatedLineIsRejected` | api/app/routers/materials.py:161-182 | one terminated line is one line and is rejected at a limit of one |
| `LineLimit.LinesAreBreaks` | api/app/routers/materials.py:169-181 | the number of split lines is the number of breaks, plus one when the last line is open |
| `LineLimit.ExceedsSplitlineLimit` | api/app/routers/materials.py:164-182 | the one-pass state machine counts breaks, a carriage return and line feed as one |

## Left out

- tus creation: admission of quota, filename, MIME allowlist and length limits, and the active-session set.
- tus sessions: expiry within a request, loss of the lock lease, S3 writes that land after a timeout, and the Content-Type check; part tags are modelled as the bytes themselves, and the digest of a checksum is a parameter.
- Restore metadata: per-object headers (cache control is not restored; an empty disposition becomes "attachment"), archive validation and the guessing of JSON value types.
- Restore commit: an ambiguous COMMIT drops both callbacks and leaves the journal for reconciliation; a cleanup failure outside a managed transaction is reported after replacement.
- TopologicalSort.SortIsPermutation: keys are distinct, as in a dump of live tables; the sort keeps only the last of several rows with one key, and deep chains meet Python's recursion limit.
- RestoreTables.RestoreIff: assumes unique keys and rows that only have their table's columns; cascades during the wipe have no effect in this order and are not modelled.
- Cryptography: HMAC, bcrypt, JWT signatures and token generation; link tokens and digests are assumed never to be drawn twice.
- Rate limits, development bypass codes, the legacy challenge helpers and re-creation of a deleted account under its old e-mail.
- RefreshRotation.OneWinner: the unconditional promise is false of the code; the condition is that no request takes longer to reach Redis than those before it. Clock skew between replicas counts as part of that delay.
- Authority on SQLite, where the advisory lock is a no-op, and restore as an authority mutation.
- StorageGc.SafeIffPunctual: one reference per claim, released at most once each; how cleanup comes by its candidates, revival of soft-deleted versions, thumbnails, legacy keys and deletes that land late are not modelled. A re-check reads the rows at one moment; the code reads versions, uploads, claims, pull-request claims and Redis in separate queries one after another.
- The staging quota and capacity reservations of `stage_qcm`.
- MoodleQuiz.ParseOfExport: XML and HTML lexing below the element level, so also the characters an XML reader rejects or normalises (control characters, carriage returns); stripping, trimming and the title guessed from a name are parameters, identifiers are dropped because the parser draws new ones.
- DirectoryPaths.DirectoryRoundTrip: live rows only; the recursive query on a cyclic table is not modelled.
- ZIP limits on file count and bytes, and natural sorting of the rows.
- SearchMix.Scan: one set of live ids per index for the whole scan; the code re-reads liveness for each batch.
- Cursor encoding, annotation threads and reply maps.
- Cascaded deletion of likes with their user, favourites, view cooldown and download counting.
- The branding and ZIP routes of the worker, CORS preflight and percent-encoding, which is a parameter.
- Bounded diffs, gzip text decoding, notifications, thin CRUD routers, settings and templates.
