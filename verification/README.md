# Verification of the GSBS publisher

The publisher turns a local SQLite database into a manifest bundle, checks it, and
puts it in an R2 bucket from which GSBS servers read.  It keeps archives of what it
published and gzipped backups of its database in the same bucket, and it rebuilds
itself from the newest backup when a host is lost.  This project models that
behaviour as a state machine over three stores that can fail at every step, models
the program's own loops and classes as imperative Dafny, and proves what holds over
every run.

`dafny verify dfyconfig.toml` checks everything.

## What is modelled

* **The stores.** OUT_DIR maps each artifact to its content, absent, torn or whole;
  the database is a file or missing; the bucket maps keys to contents (`Store`,
  `Buckets`, `Names`).
* **The protocol.** `Protocol` has one event for each file write, object put,
  deletion and rename.  A write can be torn, a put can take effect and still be
  reported as failed, the process can die between any two events, and OUT_DIR or the
  database can be wiped between runs.  `Safety` holds the invariants, `Runs`,
  `Traces` and `Witnesses` the theorems about all runs and the runs that show where
  a stated intention fails; `Outcomes` says what a run leaves, of the stores before
  and after it.
* **The program.** `World.Host` performs each step on the stores and records the
  event it amounts to; `Pipeline` sequences the steps as `publish.Export`,
  `Client.UploadLive`, `run.Weekly`, `run.SeedDB` and `run.Bootstrap` do.  Every
  trace a host records is a legal trace of the protocol, so the theorems about runs
  hold of it (`Pipeline.HostIsSafe`).  On a calm host, where nothing fails
  by itself and nobody kills the process, and with a reliable bucket, which never fails
  a well-formed request, the contracts say exactly when a run publishes.
* **The parts.** Pruning and recovery (`Retention`), the shrink guard in binary64
  (`Float64`, `ShrinkGuard`), artifact validation (`Validate`), the release history
  (`Releases`), schema repair (`Repair`), the serve loop (`Schedule`) and the
  layering of environment files (`Environment`), over texts and calendar stamps
  (`Text`, `Decimal`, `Calendar`).

## Assumptions

* One publisher uses the stores at a time; `internal/schedule/schedule.go:35-38`
  promises this only within one process.
* `store.AdvanceBundleIndex` yields the previous version plus one in both version
  fields, with the given checksum; so `internal/publish/publish_test.go:36-50` and
  `:63-95`.  `Protocol.Advance` is that contract.
* sha256 is injective and its text is never empty; gunzip undoes gzip; a torn file
  parses as nothing.
* Bucket requests see the latest state.  A listing page holds at most 1000 keys, and
  a batch deletion of more than 1000 keys, or of none, is refused as malformed.
* PUBLIC_BASE serves the live objects under R2_PREFIX, so the live index that
  `previousIndex` fetches is the index object in the bucket.
* The first segment of R2_PREFIX is neither `archive` nor `db-backup`
  (`Names.SafePrefix`; the default is `manifest`).
* Clocks do not run backwards and stay in the years 0 to 9999 (UTC).  Counts and
  versions are unbounded integers, except in the floating-point test.
* Whether it fails or not, the PCGW sync leaves a whole database.

## What was found

Each of these is a proved statement.

* Archive names sort as text, so v10 sorts before v9: in every bucket that holds both
  some pruning deletes the newer and keeps the older (`Retention.TenBeforeNine`).
  `Retention.PruningOrderExact` says for which two versions that happens in any
  bucket, and `Retention.PruningKeepsTheNewest` for which buckets it never does.
* When the local index is lost and the live one cannot be fetched, numbering
  restarts at 1 (`Witnesses.RegressionWithoutFetch`); exactly then the next version
  fails to exceed the live one (`Safety.NextVersionExact`).
* The shrink guard compares with the last export, not with the last publish as its
  comment says, so an export that is accepted and not published moves the baseline
  (`Witnesses.UnpublishedExportEscapesGuard`).  Published counts are protected as
  long as the meta file has not been touched since it was put
  (`Runs.GuardProtectsPublished`), and in general exactly when the baseline is near
  enough to them (`Runs.PublishedProtectedExactly`).
* Validation accepts an index whose bundle is absent
  (`Validate.ValidationAcceptsMissingBundle`); that what is uploaded is coherent is
  owed to the export (`Runs.UploadIsCoherent`).
* The comment on `UploadLive` promises that a new index never points at a bundle
  that has not been uploaded.  That holds, but from a bundle put to the next index
  put the old index names a bundle that is gone, also after a failed run
  (`Witnesses.WindowOutlastsFailedRun`).
* A negative keep indexes past the list.  Archive pruning has then deleted every
  archive (`Retention.PruneArchives`), backup pruning none (`Retention.PruneDBBackups`).
* Per-key errors of a batch deletion are not read, so a pruning that reports success
  may have left objects (`missed` in the contracts of `Retention`).
* More than 1000 surplus backups can never be pruned, as they are named in one batch
  (`Retention.PruneDBBackups`).
* Under a prefix in the backups' folder a live object is taken for a backup: under
  `db-backup` the live index hides every real backup from recovery
  (`Names.UnsafePrefixHidesBackups`), under `db-backup/a` it is the first that pruning
  deletes (`Names.UnsafePrefixPrunesLive`; `Names.UnsafePrefixOrder` in general).
* Repair does not look at the error of its two row iterations, so it can succeed
  after reading only some rows (`Repair.RepairIsComplete` gives the condition), and
  a trigger on a missing view can fail it (`Repair.TriggerOnViewFails`).  It compares
  names only, so it can stamp the pristine version on a database in which an object
  still has an older shape (`Repair.StampIsTruthful` gives the condition).
* After a cancellation the serve loop may start more than one run, when a tick passes
  between its reading the clock and its reaching the select; it then can start any
  number (`Schedule.LateLoopNeedNotStop`).  `Schedule.SecondStartExact` is the exact
  condition for one more run.
* The floating-point test agrees with the exact one for all counts up to 2^53 + 2 and
  not beyond: at 2^53 + 3 a drop of 2^51 + 1, more than a quarter, passes
  (`ShrinkGuard.ExactRange`, in IEEE arithmetic with ties to even).  Under other tie
  rules it is exact below 2^53 (`ShrinkGuard.FloatTestExact`) and fails at 2^54 + 3
  (`ShrinkGuard.FloatTestInexactForLargeCounts`).

## Model

| member | source | states |
|---|---|---|
| `Runs.VersionSafety` | internal/publish/publish.go:77-87 | over every run with failures, crashes, torn writes and wipes anywhere, the versions put increase strictly, the live index carries the last of them, and a local index that parses is never behind it, if the live fetch succeeds whenever the local index is lost |
| `Safety.VersionStep` | internal/r2/r2.go:104-108 | one step keeps the version invariant: the version a run is about to put exceeds the live one until it is put |
| `Safety.NextVersionExact` | internal/publish/publish.go:145-182 | the next version exceeds the live one if and only if the local index parses, the live one was fetched, or nothing is live; otherwise it is 1 |
| `Safety.NextNumber` | internal/publish/publish.go:145-182 | the next number is one more than the local index's, or than the live one's when there is no local index that parses and the live one was fetched, and otherwise 1 |
| `Runs.PutsAreNumbered` | internal/publish/publish.go:77-87 | from any index put to a later one, with OUT_DIR intact, the version grows by exactly the number of indexes written in between |
| `Witnesses.RegressionWithoutFetch` | internal/publish/publish.go:163-178 | from any state with a live version there is a run, after a wipe with a failed fetch, that puts version 1 |
| `Runs.ReaderSafety` | internal/r2/r2.go:65-108 | a reader that fetches the live index and, any number of events later, the live bundle finds a bundle of the run that wrote its index or of a later run |
| `Runs.LivePairAgrees` | internal/r2/r2.go:81-108 | in every reachable state outside the window from a bundle put to the next index put, the live index's checksum is the live bundle's |
| `Witnesses.WindowOutlastsFailedRun` | internal/r2/r2.go:83-108 | a crash between bundle put and index put leaves the publisher idle with a live index that names a bundle no longer there |
| `Safety.LiveFrame` | internal/r2/r2.go:58-63 | with a safe prefix a live bundle, meta or index changes only by its own put: archiving, backing up, pruning and dropping the delta never reach it |
| `Safety.InvStep` | internal/run/run.go:44-208 | every event of every run keeps all invariants of files, validation, archives, readers, checksums, guard baselines and snapshot files |
| `Safety.HistoryMeans` | internal/r2/r2.go:81-108 | what the history used in the theorems records of each event: the runs that wrote the live bundle and index, the window from bundle put to index put, the versions put and the last backup |
| `Safety.ChainMeans` | internal/publish/publish.go:50-63 | the counts compared along unforced exports, begun anew by a forced, torn or wiped meta file |
| `Runs.UploadIsCoherent` | internal/publish/publish.go:55-93 | from validation until archive pruning bundle, meta and index are there, index and meta carry one checksum, full.version is manifest_version, and the checksum is the bundle's if and only if it is not empty |
| `Runs.CompoundedShrinkBound` | internal/publish/publish.go:118-135 | in every reachable state the present counts are at least (3/4)^k of every positive count k unforced exports back, and stay positive |
| `Runs.GuardProtectsPublished` | internal/publish/publish.go:50-63 | over every trace, while the meta file has not been written, torn or wiped since a meta put it is the live one, and no export accepted unforced then drops a count by more than a quarter of the published count |
| `Runs.PublishedProtectedExactly` | internal/publish/publish.go:103-137 | in any state at the guard, every acceptable unforced export is within a quarter of given published counts if and only if, column by column, the least count the baseline lets pass is |
| `ShrinkGuard.ProtectsExact` | internal/publish/publish.go:127-131 | every count accepted against b is within a quarter of p if and only if p is not positive, or b is and its least accepted count is at least three quarters of p |
| `ShrinkGuard.CountsProtectExact` | internal/publish/publish.go:122-131 | the same for the three counts together |
| `Witnesses.UnpublishedExportEscapesGuard` | internal/publish/publish.go:103-105 | two unforced exports, the first unpublished, shrink the published counts from 100 to 57 |
| `Runs.RefusalChangesNothing` | internal/publish/publish.go:50-58 | a whole run that ends in a refused export, whatever else failed in it, leaves every file, object and published version as before the run, and all it can still do is clean up or die |
| `Runs.RefusalIsSticky` | internal/publish/publish.go:103-137 | over runs of any length in which all exports breach the same baseline unforced, all are refused and no file and no object changes |
| `Runs.BackupConservation` | internal/r2/r2.go:155-223 | with keep at least 1, once a backup was put there is one in every reachable state, and restoring returns the bytes of the last |
| `Runs.FullBackupStep` | internal/run/run.go:162-181 | a put under a new key and a complete pruning leave min(keep, before + 1) backups, each newer than every one removed, the new one the newest |
| `Safety.BackupStep` | internal/r2/restore.go:21-48 | every event keeps: all backups are dated no later than the last one put, which is there with its bytes |
| `Runs.BlankUntilRestored` | internal/run/run.go:66-76 | without a production source a rebuilt host changes nothing in the bucket and publishes nothing until it restores |
| `Runs.DisasterRecovery` | internal/run/run.go:210-256 | after losing OUT_DIR and the database the host restores exactly the last snapshot backed up, and every version it puts afterwards exceeds every version ever put |
| `Traces.PipelineOrder` | internal/run/run.go:103-200 | an index put follows the snapshot, the accepted export, the whole files, validation and the bundle and meta puts of its run; archive pruning follows the complete upload, backup pruning the successful backup put |
| `Traces.CompletedMeans` | internal/run/run.go:103-200 | a step counts as completed only if the trace holds its reported success, with no later run begun |
| `Traces.PublishOrder` | internal/r2/r2.go:65-108 | whenever an index is put, the files at hand are whole, the run's own and valid, and its bundle and meta are live; whenever a backup is put or something is pruned, its index is live as well |
| `Traces.OptionalStepsGoOn` | internal/run/run.go:79-98 | sync, release history, both delta removals, the archive's name and the backup cannot end a run other than by death |
| `Traces.SyncFailureIsHarmless` | internal/run/run.go:79-98 | a failed sync can be followed by exactly the traces a successful one can, with the same stores and one more warning |
| `Traces.BackupFailureIsHarmless` | internal/run/run.go:162-181 | after a failed backup the rest of the run can be exactly what it can be after a successful one and its pruning, with the same files, live objects, archives and versions and one more warning |
| `Traces.EverySnapshotCleanedOnce` | internal/run/run.go:103-118 | snapshots taken equal cleanups done plus the snapshot of a run still going on plus those a crash left behind |
| `Protocol.WarnedAlong` | internal/run/run.go:90-93 | the warnings counted over any trace are its failed syncs and failed backups |
| `Witnesses.PublishingRun` | internal/run/run.go:120-160 | with R2 configured, and a production source if fetching is on, from any idle state with a database and an acceptable valid export there is a run that puts the previous version plus one with that bundle and meta |
| `Runs.NothingWithoutR2` | internal/r2/r2.go:30-33 | over any trace, while R2 is not configured nothing is put, deleted or restored and no run succeeds |
| `World.Host.constructor` | internal/run/run.go:44-46 | a host starts idle with an empty trace |
| `World.Host.WriteFile` | internal/publish/publish.go:55-63 | a write leaves the file whole and goes on, tears it or leaves it and fails, or the process dies; no other file changes; on a calm host it succeeds |
| `World.Host.WriteHistory` | internal/publish/publish.go:65-71 | only the release history changes, to the old one upserted with the new entry, or torn; its errors are ignored, and on a calm host there are none |
| `World.Host.NextIndex` | internal/publish/publish.go:77-83 | the next index carries, in both fields, one more than the local index's version, else than the fetched live one's, else 1, with the meta's checksum and the given address |
| `World.Host.Guard` | internal/publish/publish.go:50-53 | the export goes on if and only if the guard does not refuse it, a refusal fails the run, and one that is forced or has no meta file that parses is never refused |
| `World.Host.PutFile` | internal/r2/r2.go:127-148 | a put stores the file under the key of its stage, or fails with that effect or with none; only an index put publishes a version |
| `World.Host.ValidateArtifacts` | internal/run/run.go:137-144 | the run goes on to the upload if and only if the directory is valid |
| `World.Host.NewClient` | internal/r2/r2.go:30-56 | the upload has a client only if R2 is configured; on a calm host, if and only if |
| `World.Host.FetchProd` | internal/run/run.go:51-64 | fetching needs a production source and ends with a whole database; an error ends the run before any snapshot and leaves the database as it was |
| `World.Host.CheckDatabase` | internal/run/run.go:66-77 | on a calm host the run goes on if and only if the database exists and is not empty |
| `World.Host.Sync` | internal/run/run.go:79-98 | an error adds one warning and the run goes on |
| `World.Host.TakeBackup` | internal/run/run.go:103-117 | a snapshot is the database's bytes in one more temporary file |
| `World.Host.Cleanup` | internal/run/run.go:118 | the deferred cleanup removes the snapshot and ends the run |
| `World.Host.PutBackupObject` | internal/r2/r2.go:155-186 | success stores exactly the snapshot under the key of the instant read; an error becomes one warning, with that effect or none |
| `World.Host.PruneBackups` | internal/run/run.go:172-176 | what is removed lies within the surplus, and is all of it when requests do not fail and it fits one batch; a pruning error is not an error of the step, only the panic on a negative keep is |
| `World.Host.PruneArchiveGroups` | internal/run/run.go:183-197 | what is removed is what `Retention.PruneArchives` states, whole or part way; when requests do not fail it succeeds if and only if keep is not negative; its errors end the run |
| `World.Host.RestoreNewest` | internal/r2/restore.go:58-115 | the database becomes the bytes of the newest backup or stays as it was; on a calm host with R2 configured it succeeds whenever the newest key holds a backup |
| `Pipeline.Export` | internal/publish/publish.go:30-94 | success leaves in OUT_DIR exactly the exported bundle and meta and an index with the next number; on a calm host the release history has its entry and no delta is left; a refused export leaves every file as it was; on a calm host it succeeds if and only if there is an export that the guard lets pass |
| `Pipeline.ExportHistory` | internal/publish/publish.go:65-75 | on a calm host the history is the old one with an entry of kind full and the meta's times and checksum, and the local delta is gone |
| `Pipeline.UploadStep` | internal/run/run.go:146-160 | the step makes its client and uploads; without R2 it fails and touches no object, and on a calm host with an index file it succeeds if and only if R2 is configured |
| `Pipeline.HasClient` | internal/run/run.go:149-152 | a run that has come past making its client has R2 configured |
| `Pipeline.UploadLive` | internal/r2/r2.go:69-125 | a client, so R2 is configured; success leaves, under a safe prefix, the local bundle, meta and index live, on a calm host no delta, index and bundle in the archive of the version and present instant, and all other archives and backups as they were; it publishes exactly the given version, failure at most it; on a calm host it succeeds when the index file is there |
| `Pipeline.PutIfPresent` | internal/r2/r2.go:83-91 | a present artifact is stored under its key and an absent one passed over, changing nothing else in the bucket |
| `Pipeline.BackupStep` | internal/run/run.go:162-181 | the bucket is the one before with the backup put, if it was, less what was pruned, which lies within the surplus; when nothing fails the backup is put and, if it fits one batch, exactly the surplus is gone; the step never ends the run except by the panic on a negative keep, and reports the warning its trace records, at most one |
| `Pipeline.CleanupStep` | internal/run/run.go:183-197 | what is removed is what `Retention.PruneArchives` states, or nothing when the step is off |
| `Pipeline.AfterTheUpload` | internal/run/run.go:162-197 | when nothing fails, exactly the configured backups and archives are left; live objects are untouched |
| `Pipeline.Publish` | internal/run/run.go:120-200 | export, validation, upload, backup and pruning together publish one version on success and at most one otherwise; success is a finished run (`Outcomes.IsDone`), refusal leaves files and bucket as they were |
| `Pipeline.Weekly` | internal/run/run.go:44-208 | a finished run has put exactly the version it reports, which is the next number, and under a safe prefix its valid exported files are live; when nothing fails the min(keep, before + 1) newest backups, the snapshot's the new one, and the last keep archives are left; it reports one warning for each failed sync or backup in its trace; a refused export leaves every file and object as it was; when nothing fails it finishes, without warning, if and only if the database it finds, local or fetched, has content, its export passes guard and validation, R2 is configured, and no pruning that is switched on has a negative keep; without R2 it never finishes and changes no object; no snapshot file stays unless the process dies |
| `Pipeline.SeedDB` | internal/run/run.go:228-256 | a production source is used if there is one; otherwise the database becomes the newest backup, if and only if there is one when nothing fails; an error leaves it alone |
| `Pipeline.Bootstrap` | internal/run/run.go:216-225 | a host with no database records first how it was seeded, and without a production source publishes only after restoring the newest backup; the run that follows is as for `Pipeline.Weekly`, its warnings and what it leaves included; when nothing fails it finishes if and only if the database its run finds, seeded or fetched, has content and can be published, R2 configured included |
| `Pipeline.HostIsSafe` | internal/run/run.go:39-44 | whatever a host does from a fresh start by these methods, all invariants hold, with the version and backup invariants under their conditions |
| `Outcomes.ValidIsPublished` | internal/run/run.go:120-144 | of a complete export the files at hand pass validation if and only if the export is valid |
| `Outcomes.PrunedBackupsKept` | internal/r2/r2.go:188-223 | a backup put and the surplus pruned leave the min(keep, before + 1) newest, each with its bytes |
| `Outcomes.NewestIsKept` | internal/r2/restore.go:21-25 | a new backup newer than all before is the newest of those kept |
| `Outcomes.PrunedArchivesLeft` | internal/r2/r2.go:249-282 | a complete pruning leaves the last keep archives, each with all its objects |
| `Outcomes.CopiedGroups` | internal/r2/r2.go:110-121 | an upload adds one archive, named after its version and instant |
| `Retention.DeletePrefix` | internal/r2/r2.go:284-310 | paging over a shrinking listing names every object under the prefix and touches nothing else; no batch is malformed; when requests do not fail all of them are gone |
| `Retention.DeletePage` | internal/r2/r2.go:297-307 | one batch deletes the page's keys except those the store reports errors for |
| `Buckets.NextToken` | internal/r2/r2.go:289-293 | going on after the last key of a page leaves exactly the keys not on it, and fewer of them |
| `Buckets.ListAll` | internal/r2/r2.go:195-205 | the paginator loop lists all entries once, in ascending order |
| `Retention.ListGroups` | internal/r2/r2.go:250-268 | trimming the slash of the common prefixes yields each archive group once |
| `Retention.PruneArchives` | internal/r2/r2.go:250-282 | success removes exactly the objects of the groups that sort first beyond keep; a failure leaves a suffix of the sorted groups and at most one partly deleted group; a negative keep removes all and panics |
| `Retention.DeleteFirst` | internal/r2/r2.go:274-281 | the loop over the groups, whole or stopped part way |
| `Retention.PruningKeepsTheLast` | internal/r2/r2.go:269-281 | the groups left are exactly the last of the sorted list, with all their objects, and everything outside the archives is untouched |
| `Retention.PruningKeepsTheNewest` | internal/r2/r2.go:249-282 | in any bucket, however many groups are pruned every archive pruned is older than every archive kept, if and only if no archive's version exceeds a newer one's cut to as many digits |
| `Retention.EqualWidthsSortAsText` | internal/r2/r2.go:110 | that holds when all versions have equally many digits |
| `Retention.SameVersionOrder` | internal/r2/r2.go:110 | archives of one version are always pruned in the order of time |
| `Retention.PruningOrderExact` | internal/r2/r2.go:269-281 | of two archives in any bucket some pruning deletes the newer version and keeps the older if and only if the older exceeds the newer cut to as many digits |
| `Retention.TenBeforeNine` | internal/r2/r2.go:110 | in every bucket with v9 and v10 some pruning deletes v10 and keeps v9 |
| `Names.ArchiveNameOrder` | internal/r2/r2.go:110 | for equally many digits name order is version order, then time order |
| `Names.ArchiveNameOrderExact` | internal/r2/r2.go:110-117 | in general an older version sorts first if and only if it does not exceed the newer one cut to as many digits |
| `Names.GroupPrefix` | internal/r2/r2.go:277 | deleting under a group's name and a slash reaches exactly the keys of that group, so v1 never captures v10 |
| `Names.ArchiveKeyGroup` | internal/r2/r2.go:110-117 | the archived objects of one upload form one group named after its snapshot |
| `Names.LiveKeysSafe` | internal/r2/r2.go:58-63 | live keys are out of reach of both prunings if and only if the prefix's first segment is neither of their folders |
| `Names.UnsafePrefixOrder` | internal/r2/restore.go:28-47 | under any prefix in the backups' folder a live key is taken for a newer backup than a real one if and only if its tail sorts after that one's; a tail that does not begin like a backup's sorts after all or before all |
| `Names.UnsafePrefixHidesBackups` | internal/r2/restore.go:28-47 | under the prefix db-backup the live index is taken for a backup newer than every real one |
| `Names.UnsafePrefixPrunesLive` | internal/r2/r2.go:206-214 | under db-backup/a it sorts before every real backup |
| `Names.BackupKeyOrder` | internal/r2/r2.go:172 | for all instants in the years 0 to 9999 key order is time order, to the second, and keys are equal only for equal instants |
| `Names.BackupKeyReadsBack` | internal/r2/r2.go:172 | a backup's key is "db-backup/gsbs-", the Gregorian date, "-", the time of day and ".db.gz", and spells out its instant |
| `Names.ArchiveKeyReadsBack` | internal/r2/r2.go:110-116 | an archive key spells out its version, without leading zeros, its instant and its file |
| `Names.LiveKeysAre` | internal/r2/r2.go:58-62 | the live keys, spelled out |
| `Calendar.StampOrder` | internal/r2/restore.go:21-25 | the text order of fixed-width stamps is the order of the instants |
| `Calendar.ChronologicalOrder` | internal/r2/r2.go:172 | the calendar tuple of a later instant is later |
| `Calendar.CivilExact` | internal/r2/r2.go:172 | the calendar reading of an instant is its Gregorian date and time, by a closed count of days and seconds |
| `Calendar.StampReadsBack` | internal/r2/r2.go:172 | a stamp's fields spell out its instant |
| `Decimal.DigitsOrder` | internal/r2/r2.go:172 | text order of fixed-width decimals is the order of the numbers |
| `Decimal.DecReadsBack` | internal/r2/r2.go:110 | a plain decimal is read back as its number and has no leading zero |
| `Retention.PruneDBBackups` | internal/r2/r2.go:189-223 | success removes exactly the surplus that sorts first; a negative keep panics before anything is deleted; a surplus over 1000 is never pruned |
| `Retention.Take` | internal/r2/r2.go:210-214 | the loop collects the first keys, or indexes past the list |
| `Retention.PruningKeepsNewestBackups` | internal/r2/r2.go:188-223 | a complete pruning leaves exactly the min(keep, n) newest |
| `Retention.NewestBackupSurvives` | internal/r2/restore.go:21-25 | with keep at least 1 the newest backup is never surplus |
| `Retention.BackupThenPrune` | internal/run/run.go:168-172 | after a new newest backup and a complete pruning the new one is the newest of min(keep, n + 1) |
| `Retention.LatestDBBackupKey` | internal/r2/restore.go:26-48 | the key found is the greatest of the backup keys; none is reported only when there is none |
| `Float64.QuotientTestExact` | internal/publish/publish.go:131 | rounding a quotient that is not too near to one quarter does not move it across; with a divisor below 2^53 it never is too near |
| `Float64.RoundingExists` | internal/publish/publish.go:131 | every number has a nearest double, the even one on a tie |
| `Float64.IeeeExists` | internal/publish/publish.go:131 | there are a conversion and a division that round so, as the theorems about the test suppose |
| `Float64.FirstLargeInts` | internal/publish/publish.go:131 | what conversion makes of 2^53 to 2^53 + 3 |
| `ShrinkGuard.FloatTestExact` | internal/publish/publish.go:127-134 | for old counts below 2^53 and any new count the floating-point test is the exact one, under any tie rule |
| `ShrinkGuard.ExactRange` | internal/publish/publish.go:127-134 | with ties to even the test is exact for all old counts up to n if and only if n is at most 2^53 + 2 |
| `ShrinkGuard.FirstInexactCount` | internal/publish/publish.go:131 | a drop of 2^51 + 1 out of 2^53 + 3 passes |
| `ShrinkGuard.FloatTestInexactForLargeCounts` | internal/publish/publish.go:131 | under any tie rule a drop of 2^52 + 1 out of 2^54 + 3 passes |
| `ShrinkGuard.RunChecks` | internal/publish/publish.go:127-135 | for old counts below 2^53 the check loop refuses if and only if some count fell by more than a quarter |
| `ShrinkGuard.GuardAgainstShrink` | internal/publish/publish.go:106-137 | the guard as written, in floating point, never refuses a forced export or one without a meta file that parses, and with a baseline below 2^53 refuses if and only if some count fell by more than a quarter |
| `ShrinkGuard.RefusesMeans` | internal/publish/publish.go:106-137 | the exact test refuses never with force, never without a meta file that parses, and otherwise if and only if one of the three counts fell by more than a quarter as a fraction |
| `ShrinkGuard.CompoundedBound` | internal/publish/publish.go:96-101 | along k accepted exports a count keeps (3/4)^k of its value |
| `ShrinkGuard.CompoundedBoundIsTight` | internal/publish/publish.go:101 | 64, 48, 36, 27 reaches the bound |
| `Validate.Dir` | internal/validate/validate.go:22-54 | no problem is reported if and only if each artifact present is acceptable and no bundle lacks an index; each artifact's problem is reported if and only if it has one, and a missing index only when nothing else is wrong |
| `Validate.CheckRow` | internal/validate/validate.go:98-115 | the first check that a row fails, in the order game, platform, path, traversal |
| `Validate.RowOkMeans` | internal/validate/validate.go:17-19 | a row is acceptable if and only if its game and path are not blank, its platform is one of the six known in any letter case, and its path does not climb |
| `Validate.ValidateIndex` | internal/validate/validate.go:59-76 | an index passes if and only if it parses, its versions agree, its checksum fits a bundle that is there, and its URL names the bundle |
| `Validate.ValidateRows` | internal/validate/validate.go:96-116 | the problem reported is the first unacceptable row's, and none is reported only when all rows are acceptable |
| `Validate.ValidateBundle` | internal/validate/validate.go:78-117 | a bundle passes if and only if it decodes, has schema 1 or 2 and only acceptable rows |
| `Validate.ValidateMeta` | internal/validate/validate.go:119-137 | a meta file passes if and only if it is absent, pending, or fits a bundle that is there |
| `Validate.SplitTestExact` | internal/validate/validate.go:110-114 | the split test rejects a template if and only if ".." stands between two separators of either kind or the ends |
| `Validate.ValidationCoherence` | internal/validate/validate.go:67-70 | a valid directory's index names its bundle if and only if the bundle is there and the index has a checksum |
| `Validate.ValidationAcceptsMissingBundle` | internal/validate/validate.go:43-48 | an index alone passes, whatever its checksum |
| `Releases.UpdateManifestReleases` | internal/publish/releases.go:21-50 | the loop with its replaced flag replaces the entry of the same kind and export time or appends, keeps every other entry of a file that parses in its place, and the new entry is trimmed |
| `Releases.HistoryIsLastWriteWins` | internal/publish/releases.go:34-44 | any sequence of updates yields an ordered last-write-wins map: last entry of each key, in first-insertion order |
| `Releases.ReleaseHistory` | internal/publish/releases.go:29-44 | the same after trimming, with unique keys |
| `Environment.Process.LoadDotEnv` | internal/config/config.go:113-135 | the in-place loop equals a search: each key has its process value, else that of the first line that gives it a non-empty one |
| `Environment.Process.Load` | internal/config/config.go:53-61 | each key has its process value if not empty, else the first non-empty one in the file that ENV_FILE names, else the first in .env |
| `Environment.Process.LoadLine` | internal/config/config.go:120-133 | a line sets its key only where it has no value yet |
| `Environment.FirstMatchConcat` | internal/config/config.go:56-61 | the first match of two files is the first file's, else the second's |
| `Environment.ParsePlainLine` | internal/config/config.go:121-130 | a plain line is cut at its first "=" into exactly its key and value |
| `Environment.ParsePadded` | internal/config/config.go:121-130 | a line is read back as its pair whatever space surrounds line, key and value |
| `Environment.ParseSkips` | internal/config/config.go:122-128 | comments, blank lines and lines without "=" give nothing |
| `Text.TrimPadded` | internal/config/config.go:129-130 | trimming takes away exactly the space at either end |
| `Repair.DB` | internal/repair/repair.go:30-128 | a failure changes nothing; whatever happens, nothing that existed changes and what is new is a pristine object with a definition and no reserved name, created tables first; on databases that do not fail it succeeds if and only if the creation does, and then every pristine object with a definition and no reserved name is there; the version is raised only if something was created |
| `Repair.LikeSqliteIsReserved` | internal/repair/repair.go:76 | the filter's pattern matches exactly the names of seven or more characters that begin with sqlite in any letter case |
| `Repair.SortKeyOrder` | internal/repair/repair.go:77 | the query's order is tables, then indexes, then views and triggers, each by name |
| `Repair.Compare` | internal/repair/repair.go:81-93 | the loop collects exactly the rows read whose names do not exist |
| `Repair.Transaction` | internal/repair/repair.go:100-111 | the creation loop equals creating all missing objects in order, or fails |
| `Repair.RepairFrame` | internal/repair/repair.go:22-29 | every object that existed is unchanged, and every new one is a wanted pristine object as it is there |
| `Repair.RepairIsComplete` | internal/repair/repair.go:83-93 | every wanted object is present if and only if no unread row is missing |
| `Repair.StampIsTruthful` | internal/repair/repair.go:95-116 | when all rows were read, every wanted object is present in its pristine shape, as the version stamp says, if and only if every one that existed had that shape |
| `Repair.SecondRepairIsNoOp` | internal/repair/repair.go:95-98 | after a complete repair another finds nothing missing |
| `Repair.CreationSucceeds` | internal/repair/repair.go:104-111 | creating in order succeeds if and only if each index's and trigger's table comes before it |
| `Repair.RowsRespectDependencies` | internal/repair/repair.go:73-77 | when indexes and triggers are on tables, the query's order never fails on a dependency |
| `Repair.TriggerOnViewFails` | internal/repair/repair.go:77 | a trigger that sorts before its missing view fails the creation |
| `Repair.SameMissing` | internal/repair/repair.go:58-71 | existing names lost from the listing cannot go unnoticed when the creation succeeds |
| `Schedule.Serve` | internal/schedule/schedule.go:98-115 | every observed log is a behaviour of the loop and starts with a startup run, at once, if and only if one was asked for; a scheduled run starts as soon as its round has seen its tick; the loop stops short only in a round that has seen a cancellation, and when its own steps take no time, only for one no later than the first tick after the last run's end |
| `Schedule.Round` | internal/schedule/schedule.go:102-113 | one round reads the clock, waits for the next tick, and runs unless its select has seen a cancellation |
| `Schedule.PromptStarts` | internal/schedule/schedule.go:102-112 | when the loop's own steps take no time each run starts exactly at the first tick after the end of the run before |
| `Schedule.RunsAreDisjoint` | internal/schedule/schedule.go:35-38 | no instant lies in two runs, whatever their durations |
| `Schedule.FirstTickAfterClockRead` | internal/schedule/schedule.go:103-112 | a scheduled run is for the first tick after the clock was read and starts no earlier |
| `Schedule.TargetsIncrease` | internal/schedule/schedule.go:102-112 | no tick is run twice |
| `Schedule.SkippedTicks` | internal/schedule/schedule.go:36-38 | between consecutive runs the ticks skipped are exactly those passed before the clock was read again |
| `Schedule.EveryTickAccounted` | internal/schedule/schedule.go:102-114 | every tick in a stretch of the log was run or passed during a run or a late timer |
| `Schedule.AtMostOneStartAfterCancel` | internal/schedule/schedule.go:106-113 | a second start after a cancellation is possible only for a tick that passed before the select was reached |
| `Schedule.PromptLoopStops` | internal/schedule/schedule.go:106-113 | a loop that reaches its select before the tick starts at most one run after a cancellation |
| `Schedule.StartExact` | internal/schedule/schedule.go:103-113 | a run can follow a log, a first run included, if and only if its tick passes before the loop reaches its select or comes no later than the cancellation; so a loop cancelled while it waits starts nothing |
| `Schedule.SecondStartExact` | internal/schedule/schedule.go:103-113 | after a run that started at or after the cancellation one more can start if and only if its tick passes before the loop reaches its select |
| `Schedule.LateLoopNeedNotStop` | internal/schedule/schedule.go:103-113 | for every n there is a behaviour with n starts after a cancellation, each select reached late |

## Left out

- Schedule.Serve: observes the loop for a bounded number of rounds, because the program's loop does not end; the lemmas hold for logs of every length.
- The seeding of a missing database before the loop of `Serve` starts; the step itself is `Pipeline.SeedDB`.
- Schedule.AtMostOneStartAfterCancel: does not exclude a second start, because the code's select may choose a timer that is already due; SecondStartExact gives the exact condition.
- World.Host.Guard: decides by the exact quarter test; ShrinkGuard.GuardAgainstShrink proves that the floating-point guard agrees with it for baseline counts below 2^53, and ShrinkGuard.ExactRange where it stops agreeing.
- World.Host.PruneArchiveGroups: prunes in one step with no process death part way; the protocol's event allows any part of the archives to be gone, so the theorems about runs cover it.
- World.Host.RestoreNewest: shows only the rename, not the temporary file, and not the write-ahead log that may lie beside a database that is overwritten.
- World.Host.FetchProd: the fetched database is some whole database or the step fails; rsync and the integrity check are not modelled.
- World.Host.Sync: the contents of a sync are not modelled.
- Validate.ValidateBundle: takes rows as printed, so a missing field counts as the text it prints and passes the emptiness test; schema_version is its integer part; lower-casing is of ASCII letters.
- Environment.Process.LoadDotEnv: takes the lines the scanner delivers, so its limit of 64 KiB a line is not modelled; spaces are ASCII spaces.
- Releases.UpdateManifestReleases: a history that does not parse counts as empty, and schema_version is not modelled.
- Repair.CreationSucceeds: supposes that existing tables have the columns that indexes, triggers and views name; SQLite refuses an index on a column that an older table lacks.
- Repair.RowsRespectDependencies: supposes the same.
- World.Host.TakeBackup: a process killed inside the step may leave a partial snapshot file, which is not counted.
- Repair.DB: names are compared exactly, while SQLite folds their case; building the pristine database is not part of this model.
- The state of the bucket outside the three key spaces, object metadata, cache headers and the CDN in front of the bucket.
- Restoring an explicit key, and the commands that run one step alone.
- Defaults and conversions of configuration values (`env`, `envBool`, `envInt`) and relative paths: one branch each.
- The contents of bundles, migrations and JSON parsing inside the GSBS store, job and pcgw packages, which are not part of this model.
- AWS client construction, HTTP transport and timeouts, cron parsing, logging, webhooks, redaction, Docker and shell scripts.
- Two publishers at once: the program has no lock across processes, and the theorems assume one.
