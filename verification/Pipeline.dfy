/** The weekly pipeline and the bootstrap, as the program sequences them. */
module Pipeline {
  import opened Text
  import opened Store
  import opened Names
  import opened Calendar
  import opened Protocol
  import opened World
  import opened Buckets
  import opened Outcomes
  import Retention
  import Runs
  import Safety
  import Validate

  /** The step ended the run with an error, or the process is gone. */
  ghost predicate Stopped(w: Host, r: Step)
    reads w, w.bucket
  {
    (r.Err? ==> w.Failing()) && (r.Dead? ==> w.Ended())
  }

  /** publish.Export; x is what the store exports from the snapshot, or None when it
      cannot or PUBLIC_BASE is empty. */
  method Export(w: Host, x: Option<Export>, url: string) returns (r: Step, version: nat, ghost fetched: bool)
    requires w.AtStage(GuardExport)
    modifies w`files, w`model, w`trace
    ensures r.Ok? ==> w.AtStage(CheckDir) && w.CurrentJob().index.version == version
    ensures r.Ok? ==> w.CurrentJob().warnings == old(w.CurrentJob().warnings)
    ensures r.Ok? ==> w.CurrentJob().snap == old(w.CurrentJob().snap)
    ensures r.Ok? ==>
              IsExported(w.cfg, w.calm, old(w.files), w.bucket.objects, x, fetched, url, version, w.files)
    ensures w.calm ==> (r.Ok? <==> PassesGuard(old(w.files), x)) && fetched && !r.Dead?
    ensures !PassesGuard(old(w.files), x) ==> !r.Ok? && w.files == old(w.files)
    ensures Stopped(w, r) && w.Quiet()
  {
    version, fetched := 0, true;
    if x.None? {
      w.Return(GuardExport);
      return Err, version, fetched;
    }
    r := ExportBundle(w, x.value);
    if !r.Ok? { return; }
    ghost var middle, index := w.files, Advance(0, NoDigest, url);
    r, version, fetched, index := ExportIndex(w, x.value.meta, url);
    if !r.Ok? { return; }
    ExportAssembled(
      w.cfg, w.calm, old(w.files), middle, w.bucket.objects, x.value, fetched, url, index, w.files);
  }

  /** The guard, the bundle, the meta, the release history and the old local delta. */
  method ExportBundle(w: Host, x: Export) returns (r: Step)
    requires w.AtStage(GuardExport)
    modifies w`files, w`model, w`trace
    ensures r.Ok? ==> w.AtStage(ReadPrevious) && w.CurrentJob() == old(w.CurrentJob()).(x := x)
    ensures r.Ok? ==> SameArtifacts(w.files, old(w.files)[Gz := BundleFile(x.bundle)][Meta := MetaFile(x.meta)])
    ensures r.Ok? ==> PassesGuard(old(w.files), Some(x))
    ensures w.calm ==> (r.Ok? <==> PassesGuard(old(w.files), Some(x))) && !r.Dead?
    ensures w.calm && r.Ok? ==> HistoryWritten(old(w.files), w.files, x.meta) && Delta !in w.files
    ensures w.bucket.objects == old(w.bucket.objects)
    ensures !PassesGuard(old(w.files), Some(x)) ==> !r.Ok? && w.files == old(w.files)
    ensures Stopped(w, r) && w.Quiet()
  {
    r := w.Guard(x);
    if !r.Ok? { return; }
    r := w.WriteFile(WriteGz, Gz, BundleFile(x.bundle));
    if !r.Ok? { return; }
    ghost var written := w.files;
    r := ExportMeta(w, x);
    if w.calm {
      SameHistory(written, old(w.files), w.files, w.files, x.meta);
    }
  }

  lemma OnlySideFiles(f: Files, g: Files, h: Files)
    requires OnlyChanges(Artifact.Releases, f, g) && OnlyChanges(Delta, g, h)
    ensures SameArtifacts(h, f)
  {
  }

  method ExportMeta(w: Host, x: Export) returns (r: Step)
    requires w.AtStage(WriteMeta) && w.CurrentJob().x == x
    modifies w`files, w`model, w`trace
    ensures r.Ok? ==> w.AtStage(ReadPrevious) && w.CurrentJob() == old(w.CurrentJob())
    ensures r.Ok? ==> SameArtifacts(w.files, old(w.files)[Meta := MetaFile(x.meta)])
    ensures w.calm ==> r.Ok? && HistoryWritten(old(w.files), w.files, x.meta) && Delta !in w.files
    ensures Stopped(w, r) && w.Quiet()
  {
    var meta := x.meta;
    r := w.WriteFile(WriteMeta, Meta, MetaFile(meta));
    if !r.Ok? { return; }
    ghost var written := w.files;
    r := ExportHistory(w, meta);
    if w.calm {
      SameHistory(written, old(w.files), w.files, w.files, meta);
    }
  }

  /** The release history, with errors ignored, and the removal of an old local delta. */
  method ExportHistory(w: Host, meta: MetaDoc) returns (r: Step)
    requires w.AtStage(WriteReleases)
    modifies w`files, w`model, w`trace
    ensures r.Ok? ==> w.AtStage(ReadPrevious) && w.CurrentJob() == old(w.CurrentJob())
    ensures r.Ok? ==> SameArtifacts(w.files, old(w.files))
    ensures w.calm ==> r.Ok? && HistoryWritten(old(w.files), w.files, meta) && Delta !in w.files
    ensures Stopped(w, r) && w.Quiet()
  {
    r := w.WriteHistory(Release("full", meta.exportedAt, meta.fullExportedAt, meta.fullSha));
    if !r.Ok? { return; }
    ghost var middle := w.files;
    r := w.RemoveLocalDelta();
    if !r.Ok? { return; }
    OnlySideFiles(old(w.files), middle, w.files);
    HistoryIsWritten(old(w.files), meta);
  }

  /** The next index. */
  method ExportIndex(w: Host, meta: MetaDoc, url: string)
      returns (r: Step, version: nat, ghost fetched: bool, ghost next: IndexDoc)
    requires w.AtStage(ReadPrevious) && w.CurrentJob().x.meta == meta
    modifies w`files, w`model, w`trace
    ensures r.Ok? ==> w.AtStage(CheckDir) && w.CurrentJob().index.version == version
    ensures r.Ok? ==> w.CurrentJob().warnings == old(w.CurrentJob().warnings)
    ensures r.Ok? ==> w.CurrentJob().snap == old(w.CurrentJob().snap)
    ensures r.Ok? ==>
              && next == Advance(
                   PreviousVersion(w.cfg.prefix, old(w.files), w.bucket.objects, fetched), meta.fullSha, url)
              && version == next.version && w.files == old(w.files)[Index := IndexFile(next)]
    ensures w.bucket.objects == old(w.bucket.objects)
    ensures w.calm ==> r.Ok? && fetched
    ensures Stopped(w, r) && w.Quiet()
  {
    version := 0;
    var index;
    r, index, fetched := w.NextIndex(meta.fullSha, url);
    next := index;
    if !r.Ok? { return; }
    version := index.version;
    r := w.WriteFile(WriteIndex, Index, IndexFile(index));
  }

  /** One artifact of the upload, passed over when its file is absent. */
  method PutIfPresent(w: Host, ghost stage: Stage, a: Artifact, key: string) returns (r: Step)
    requires w.AtStage(stage) && stage in {PutGz, PutMeta, ArchiveIndex, ArchiveGz} && a == PutArtifact(stage)
    requires KeyDefined(stage, w.CurrentJob()) && key == PutKey(w.cfg, stage, w.CurrentJob())
    modifies w`model, w`trace, w.bucket
    ensures w.files == old(w.files)
    ensures w.calm ==> r.Ok?
    ensures r.Ok? ==> w.Valid() && w.model.phase == GoOn(Following(w.cfg, stage), old(w.CurrentJob()))
    ensures r.Ok? ==> w.bucket.objects == WithFile(old(w.bucket.objects), w.files, key, a)
    ensures w.bucket.objects == old(w.bucket.objects)
         || w.bucket.objects == WithFile(old(w.bucket.objects), w.files, key, a)
    ensures Stopped(w, r) && w.Quiet()
  {
    if a !in w.files {
      w.Skip(stage);
      return Ok;
    }
    r := w.PutFile(stage, a, key);
  }

  /** A run that has come past Connect has a client, so R2 is configured. */
  lemma HasClient(w: Host)
    requires w.Valid() && w.model.phase.At? && Rank(Connect) < Rank(w.model.phase.stage) < Rank(Unwind)
    ensures w.cfg.r2
  {
    if !w.cfg.r2 {
      Runs.NothingWithoutR2(w.cfg, w.start, w.trace);
    }
  }

  /** Backups are as before; archives too, but for the copies; and on a calm host no old
      delta is live. */
  ghost predicate IsUploaded(w: Host, before: Objects, version: nat, now: nat)
    requires FourDigitYear(now)
    reads w, w.bucket
  {
    && SameUnder(before, w.bucket.objects, BACKUPS)
    && SameUnder(Copied(before, w.files, version, now), w.bucket.objects, ARCHIVE)
    && (w.calm ==> Safety.Live(w.cfg, w.bucket.objects, Delta).None?)
  }

  /** The upload_r2 step: r2.New, which fails unless R2 is configured, and the upload. */
  method UploadStep(w: Host, version: nat) returns (r: Step, ghost now: nat)
    requires w.AtStage(Connect) && w.CurrentJob().index.version == version
    modifies w`clock, w`model, w`trace, w.bucket
    ensures w.files == old(w.files)
    ensures w.calm && Index in w.files ==> (r.Ok? <==> w.cfg.r2) && !r.Dead?
    ensures !w.cfg.r2 ==> !r.Ok? && w.bucket.objects == old(w.bucket.objects)
                          && w.Quiet()
    ensures r.Ok? ==> Uploaded(w, old(w.CurrentJob()))
    ensures r.Ok? && SafePrefix(w.cfg.prefix) ==> LiveIsLocal(w.cfg, w.bucket.objects, w.files)
    ensures r.Ok? ==> FourDigitYear(now) && old(w.clock) <= now == w.clock
    ensures r.Ok? ==> IsArchived(w.bucket.objects, w.files, version, now)
    ensures r.Ok? && SafePrefix(w.cfg.prefix) ==> IsUploaded(w, old(w.bucket.objects), version, now)
    ensures r.Ok? ==> w.model.past.published == old(w.model.past.published) + [version]
    ensures Stopped(w, r)
    ensures w.MayHavePut(version)
  {
    now := 0;
    r := w.NewClient();
    if !r.Ok? { return; }
    r, now := UploadLive(w, version);
  }

  /** Client.UploadLive: bundle and meta first, the index last, then the archive.
      Success leaves the local bundle, meta and index live, and index and bundle in
      the archive. */
  method UploadLive(w: Host, version: nat) returns (r: Step, ghost now: nat)
    requires w.AtStage(PutGz) && w.CurrentJob().index.version == version
    modifies w`clock, w`model, w`trace, w.bucket
    ensures w.cfg.r2 && w.files == old(w.files)
    ensures w.calm && w.cfg.r2 && Index in w.files ==> r.Ok?
    ensures r.Ok? ==> Uploaded(w, old(w.CurrentJob()))
    ensures r.Ok? && SafePrefix(w.cfg.prefix) ==> LiveIsLocal(w.cfg, w.bucket.objects, w.files) && Index in w.files
    ensures r.Ok? ==> FourDigitYear(now) && old(w.clock) <= now == w.clock
    ensures r.Ok? ==> IsArchived(w.bucket.objects, w.files, version, now)
    ensures r.Ok? && SafePrefix(w.cfg.prefix) ==> IsUploaded(w, old(w.bucket.objects), version, now)
    ensures r.Ok? ==> w.model.past.published == old(w.model.past.published) + [version]
    ensures Stopped(w, r)
    ensures w.MayHavePut(version)
  {
    now := 0;
    HasClient(w);
    r := UploadArtifacts(w, version);
    if !r.Ok? { return; }
    ghost var before := w.bucket.objects;
    r, now := UploadArchive(w, version);
    if r.Ok? {
      ArchiveCopies(w.cfg, before, w.files, version, now);
      if SafePrefix(w.cfg.prefix) {
        StillLocal(w.cfg, before, w.bucket.objects, w.files);
        UploadFolders(w.cfg, old(w.bucket.objects), before, w.files, version, now);
      }
    }
  }

  /** The upload is complete: the run goes on with its snapshot and warnings, or is
      on its way out with success. */
  ghost predicate Uploaded(w: Host, before: Job)
    reads w, w.bucket
  {
    && w.Valid() && w.model.phase.At? && w.model.phase.stage == AfterUpload(w.cfg)
    && (w.model.phase.stage == Unwind ==> w.CurrentJob().ok)
    && w.CurrentJob().warnings == before.warnings && w.CurrentJob().snap == before.snap
  }

  /** Bundle, meta and index. */
  method UploadArtifacts(w: Host, version: nat) returns (r: Step)
    requires w.AtStage(PutGz) && w.CurrentJob().index.version == version
    modifies w`model, w`trace, w.bucket
    ensures w.files == old(w.files)
    ensures w.calm && Index in w.files ==> r.Ok?
    ensures r.Ok? ==> w.AtStage(NameArchive) && w.CurrentJob() == old(w.CurrentJob())
    ensures r.Ok? ==> LiveIsLocal(w.cfg, w.bucket.objects, w.files) && Index in w.files
    ensures r.Ok? ==> TouchesOnlyLive(w.cfg, old(w.bucket.objects), w.bucket.objects)
    ensures r.Ok? && w.calm ==> Safety.Live(w.cfg, w.bucket.objects, Delta).None?
    ensures r.Ok? ==> w.model.past.published == old(w.model.past.published) + [version]
    ensures Stopped(w, r)
    ensures w.MayHavePut(version)
  {
    ghost var start := w.bucket.objects;
    r := UploadFirst(w);
    if !r.Ok? { return; }
    ghost var first := w.bucket.objects;
    r := UploadIndex(w, version);
    if r.Ok? {
      ThreeLive(w.cfg, start, first, w.bucket.objects, w.files, w.calm);
    }
  }

  method UploadFirst(w: Host) returns (r: Step)
    requires w.AtStage(PutGz)
    modifies w`model, w`trace, w.bucket
    ensures w.files == old(w.files)
    ensures w.calm ==> r.Ok?
    ensures r.Ok? ==> w.AtStage(DropDelta) && w.CurrentJob() == old(w.CurrentJob())
    ensures r.Ok? ==>
              w.bucket.objects == WithFile(
                WithFile(old(w.bucket.objects), w.files, LiveKey(w.cfg.prefix, Gz), Gz),
                w.files, LiveKey(w.cfg.prefix, Meta), Meta)
    ensures Stopped(w, r) && w.Quiet()
  {
    r := PutIfPresent(w, PutGz, Gz, LiveKey(w.cfg.prefix, Gz));
    if !r.Ok? { return; }
    r := PutIfPresent(w, PutMeta, Meta, LiveKey(w.cfg.prefix, Meta));
  }

  /** The index put; an index file that cannot be read is an error. */
  method UploadIndex(w: Host, version: nat) returns (r: Step)
    requires w.AtStage(DropDelta) && w.CurrentJob().index.version == version
    modifies w`model, w`trace, w.bucket
    ensures w.files == old(w.files)
    ensures w.calm && Index in w.files ==> r.Ok?
    ensures r.Ok? ==> w.AtStage(NameArchive) && w.CurrentJob() == old(w.CurrentJob())
    ensures r.Ok? ==> IndexStored(w.cfg, old(w.bucket.objects), w.bucket.objects, w.files, w.calm)
    ensures r.Ok? ==> w.model.past.published == old(w.model.past.published) + [version]
    ensures Stopped(w, r)
    ensures w.MayHavePut(version)
  {
    ghost var before := w.bucket.objects;
    r := w.DropLiveDelta();
    if !r.Ok? { return; }
    ghost var dropped := w.bucket.objects;
    r := PutIndexFile(w, version);
    if r.Ok? {
      IndexIsStored(w.cfg, before, dropped, w.bucket.objects, w.files, w.calm);
    }
  }

  method PutIndexFile(w: Host, version: nat) returns (r: Step)
    requires w.AtStage(PutIndex) && w.CurrentJob().index.version == version
    modifies w`model, w`trace, w.bucket
    ensures w.calm && Index in w.files ==> r.Ok?
    ensures r.Ok? ==> w.AtStage(NameArchive) && w.CurrentJob() == old(w.CurrentJob())
    ensures r.Ok? ==>
              Index in w.files
              && w.bucket.objects == old(w.bucket.objects)[LiveKey(w.cfg.prefix, Index) := w.files[Index]]
    ensures r.Ok? ==> w.model.past.published == old(w.model.past.published) + [version]
    ensures Stopped(w, r)
    ensures w.MayHavePut(version)
  {
    if Index !in w.files {
      w.Return(PutIndex);
      return Err;
    }
    r := w.PutFile(PutIndex, Index, LiveKey(w.cfg.prefix, Index));
  }

  /** The archive copies of index and bundle. */
  method UploadArchive(w: Host, version: nat) returns (r: Step, ghost now: nat)
    requires w.AtStage(NameArchive) && w.CurrentJob().index.version == version
    modifies w`clock, w`model, w`trace, w.bucket
    ensures w.files == old(w.files)
    ensures w.calm ==> r.Ok?
    ensures r.Ok? ==> Uploaded(w, old(w.CurrentJob()))
    ensures r.Ok? ==>
              && FourDigitYear(now) && old(w.clock) <= now == w.clock
              && w.bucket.objects == Copied(old(w.bucket.objects), w.files, version, now)
    ensures Stopped(w, r) && w.Quiet()
  {
    var read;
    r, read := w.StampArchive();
    now := read;
    if !r.Ok? { return; }
    r := UploadCopies(w, version, read);
  }

  method UploadCopies(w: Host, version: nat, now: nat) returns (r: Step)
    requires w.AtStage(ArchiveIndex) && w.CurrentJob().index.version == version
    requires w.CurrentJob().archivedAt == now && FourDigitYear(now)
    modifies w`model, w`trace, w.bucket
    ensures w.files == old(w.files)
    ensures w.calm ==> r.Ok?
    ensures r.Ok? ==> Uploaded(w, old(w.CurrentJob()))
    ensures r.Ok? ==> w.bucket.objects == Copied(old(w.bucket.objects), w.files, version, now)
    ensures Stopped(w, r) && w.Quiet()
  {
    r := PutIfPresent(w, ArchiveIndex, Index, ArchiveKey(version, now, Index));
    if !r.Ok? { return; }
    r := UploadLastCopy(w, version, now);
  }

  method UploadLastCopy(w: Host, version: nat, now: nat) returns (r: Step)
    requires w.AtStage(ArchiveGz) && w.CurrentJob().index.version == version
    requires w.CurrentJob().archivedAt == now && FourDigitYear(now)
    modifies w`model, w`trace, w.bucket
    ensures w.files == old(w.files)
    ensures w.calm ==> r.Ok?
    ensures r.Ok? ==> Uploaded(w, old(w.CurrentJob()))
    ensures r.Ok? ==>
              w.bucket.objects == WithFile(old(w.bucket.objects), w.files, ArchiveKey(version, now, Gz), Gz)
    ensures Stopped(w, r) && w.Quiet()
  {
    r := PutIfPresent(w, ArchiveGz, Gz, ArchiveKey(version, now, Gz));
  }

  // ---- the steps after the upload -----------------------------------------

  /** The db_backup step; its failure is a warning.

      What it leaves is the bucket with the backup put, if it was, less what the pruning
      removed, which lies within the surplus; when nothing fails by itself the backup is
      put and, if it fits one batch, exactly the surplus is removed. */
  method BackupStep(w: Host, snap: Snapshot)
      returns (r: Step, warned: nat, ghost now: nat, ghost stored: bool, ghost gone: set<string>)
    requires w.AtStage(PutBackup) && w.CurrentJob().snap == snap
    modifies w`clock, w`model, w`trace, w.bucket
    ensures w.files == old(w.files)
    ensures w.calm && w.bucket.reliable ==> (r.Ok? <==> w.cfg.backupKeep >= 0) && warned == 0 && !r.Dead?
    ensures r.Ok? ==> w.Valid() && w.model.phase.At? && w.model.phase.stage == AfterBackup(w.cfg)
    ensures r.Ok? ==> (w.model.phase.stage == Unwind ==> w.CurrentJob().ok)
    ensures warned <= 1 && (r.Ok? ==> w.CurrentJob().warnings == old(w.CurrentJob().warnings) + warned)
    ensures r.Err? ==> w.cfg.backupKeep < 0
    ensures FourDigitYear(now) && old(w.clock) <= now
    ensures
      var put := if stored then old(w.bucket.objects)[BackupKey(now) := BackupFile(snap)] else old(w.bucket.objects);
      && w.bucket.objects == put - gone
      && (gone != {} ==> w.cfg.backupKeep >= 0 && gone <= Retention.Surplus(put.Keys, w.cfg.backupKeep))
      && (r.Ok? && warned == 0 ==> stored)
      && (w.calm && w.bucket.reliable && w.cfg.backupKeep >= 0
          && |Under(put.Keys, BACKUPS)| - w.cfg.backupKeep <= MAX_KEYS ==>
            gone == Retention.Surplus(put.Keys, w.cfg.backupKeep))
    ensures Stopped(w, r) && w.Noted(warned)
  {
    warned := 0;
    ghost var start := w.bucket.objects;
    r, now := w.PutBackupObject(snap);
    stored, gone := w.bucket.objects == start[BackupKey(now) := BackupFile(snap)], {};
    NothingRemoved(w.bucket.objects, gone);
    if r.Err? {
      warned := 1;
      return Ok, warned, now, stored, gone;
    }
    if r.Dead? { return; }
    r, gone := w.PruneBackups();
  }

  /** The r2_cleanup step, or its absence. */
  method CleanupStep(w: Host)
      returns (r: Step, ghost done: Retention.PruneResult, ghost gone: set<string>, ghost missed: set<string>)
    requires w.Valid() && w.model.phase.At? && w.model.phase.stage == AfterBackup(w.cfg)
    requires w.model.phase.stage == Unwind ==> w.CurrentJob().ok
    modifies w`model, w`trace, w.bucket
    ensures w.files == old(w.files)
    ensures w.calm && w.bucket.reliable ==> (r.Ok? <==> (w.cfg.cleanup ==> w.cfg.keep >= 0)) && !r.Dead?
    ensures r.Ok? ==> w.AtStage(Unwind) && w.CurrentJob().ok && w.CurrentJob().warnings == old(w.CurrentJob().warnings)
    ensures w.bucket.objects == old(w.bucket.objects) - gone
    ensures if w.cfg.cleanup
            then ArchivesPruned(old(w.bucket.objects), w.cfg.keep, w.bucket.reliable, done, gone, missed)
                 && (r.Ok? ==> done.Pruned?)
            else gone == {}
    ensures Stopped(w, r) && w.Quiet()
  {
    r, done, gone, missed := Ok, Retention.PruneResult.ListFailed, {}, {};
    NothingRemoved(w.bucket.objects, gone);
    if w.cfg.cleanup {
      r, done, gone, missed := w.PruneArchiveGroups();
    }
  }

  /** Backup and archive pruning. */
  method AfterTheUpload(w: Host, snap: Snapshot, before: nat) returns (r: Step, warnings: nat, ghost backupAt: nat)
    requires w.Valid() && w.model.phase.At? && w.model.phase.stage == AfterUpload(w.cfg)
    requires w.model.phase.stage == Unwind ==> w.CurrentJob().ok
    requires w.CurrentJob().warnings == before && w.CurrentJob().snap == snap
    modifies w`clock, w`model, w`trace, w.bucket
    ensures w.files == old(w.files)
    ensures w.calm && w.bucket.reliable ==> (r.Ok? <==> Prunable(w.cfg)) && !r.Dead? && warnings == before
    ensures r.Ok? ==> Succeeding(w, before, warnings)
    ensures FourDigitYear(backupAt)
    ensures SafePrefix(w.cfg.prefix) ==> SameLive(w.cfg, old(w.bucket.objects), w.bucket.objects)
    ensures r.Ok? && w.calm && w.bucket.reliable ==>
              IsLeft(w.cfg, old(w.bucket.objects), w.bucket.objects, backupAt, snap)
    ensures before <= warnings <= before + 1 && Stopped(w, r) && w.Noted(warnings - before)
  {
    ghost var start := w.bucket.objects;
    var warned;
    r, warned, backupAt := BackUpIfAsked(w, snap);
    warnings := before + warned;
    ghost var backedUp := w.bucket.objects;
    if !r.Ok? { return; }
    r := CleanUp(w);
    LiveThrough(w.cfg, start, backedUp, w.bucket.objects);
    if r.Ok? && w.calm && w.bucket.reliable {
      LeftThrough(w.cfg, start, backedUp, w.bucket.objects, backupAt, snap);
    }
  }

  method BackUpIfAsked(w: Host, snap: Snapshot) returns (r: Step, warned: nat, ghost now: nat)
    requires w.Valid() && w.model.phase.At? && w.model.phase.stage == AfterUpload(w.cfg)
    requires w.model.phase.stage == Unwind ==> w.CurrentJob().ok
    requires w.CurrentJob().snap == snap
    modifies w`clock, w`model, w`trace, w.bucket
    ensures w.files == old(w.files)
    ensures w.calm && w.bucket.reliable ==>
              (r.Ok? <==> (w.cfg.dbBackup ==> w.cfg.backupKeep >= 0)) && warned == 0 && !r.Dead?
    ensures r.Ok? ==> w.Valid() && w.model.phase.At? && w.model.phase.stage == AfterBackup(w.cfg)
    ensures r.Ok? ==> (w.model.phase.stage == Unwind ==> w.CurrentJob().ok)
    ensures warned <= 1 && (r.Ok? ==> w.CurrentJob().warnings == old(w.CurrentJob().warnings) + warned)
    ensures FourDigitYear(now) && SameUnder(old(w.bucket.objects), w.bucket.objects, ARCHIVE)
    ensures SafePrefix(w.cfg.prefix) ==> SameLive(w.cfg, old(w.bucket.objects), w.bucket.objects)
    ensures r.Ok? && w.calm && w.bucket.reliable ==>
              BackupsLeft(w.cfg, old(w.bucket.objects), w.bucket.objects, now, snap)
    ensures Stopped(w, r) && w.Noted(warned)
  {
    if !w.cfg.dbBackup { return Ok, 0, w.clock; }
    r, warned, now := BackUp(w, snap);
  }

  /** What the two steps leave of the archives and backups when nothing fails. */
  ghost predicate IsLeft(cfg: Config, before: Objects, after: Objects, backupAt: nat, snap: Snapshot)
    requires FourDigitYear(backupAt)
  {
    && BackupsLeft(cfg, before, after, backupAt, snap)
    && (if cfg.cleanup then ArchivesLeft(cfg.keep, before, after) else SameUnder(before, after, ARCHIVE))
  }

  ghost predicate BackupsLeft(cfg: Config, before: Objects, after: Objects, backupAt: nat, snap: Snapshot)
    requires FourDigitYear(backupAt)
  {
    if cfg.dbBackup then
      |Backups(before)| + 1 - cfg.backupKeep <= MAX_KEYS ==>
        BackupsKept(cfg.backupKeep, before, after, backupAt, snap)
    else SameUnder(before, after, BACKUPS)
  }

  lemma LiveThrough(cfg: Config, a: Objects, b: Objects, c: Objects)
    requires SafePrefix(cfg.prefix) ==> SameLive(cfg, a, b) && SameLive(cfg, b, c)
    ensures SafePrefix(cfg.prefix) ==> SameLive(cfg, a, c)
  {
  }

  lemma LeftThrough(cfg: Config, start: Objects, middle: Objects, end: Objects, backupAt: nat, snap: Snapshot)
    requires FourDigitYear(backupAt) && BackupsLeft(cfg, start, middle, backupAt, snap)
    requires SameUnder(start, middle, ARCHIVE) && SameUnder(middle, end, BACKUPS)
    requires if cfg.cleanup then ArchivesLeft(cfg.keep, middle, end) else SameUnder(middle, end, ARCHIVE)
    ensures IsLeft(cfg, start, end, backupAt, snap)
  {
    if cfg.dbBackup && |Backups(start)| + 1 - cfg.backupKeep <= MAX_KEYS {
      BackupsKeptSame(cfg.backupKeep, start, start, middle, end, backupAt, snap);
    }
    if cfg.cleanup {
      ArchivesLeftSame(cfg.keep, middle, start, end);
    }
  }

  /** The db_backup step and what it leaves. */
  method BackUp(w: Host, snap: Snapshot) returns (r: Step, warned: nat, ghost now: nat)
    requires w.AtStage(PutBackup) && w.CurrentJob().snap == snap && w.cfg.dbBackup
    modifies w`clock, w`model, w`trace, w.bucket
    ensures w.files == old(w.files)
    ensures w.calm && w.bucket.reliable ==> (r.Ok? <==> w.cfg.backupKeep >= 0) && warned == 0 && !r.Dead?
    ensures r.Ok? ==> w.Valid() && w.model.phase.At? && w.model.phase.stage == AfterBackup(w.cfg)
    ensures r.Ok? ==> (w.model.phase.stage == Unwind ==> w.CurrentJob().ok)
    ensures warned <= 1 && (r.Ok? ==> w.CurrentJob().warnings == old(w.CurrentJob().warnings) + warned)
    ensures FourDigitYear(now) && SameUnder(old(w.bucket.objects), w.bucket.objects, ARCHIVE)
    ensures SafePrefix(w.cfg.prefix) ==> SameLive(w.cfg, old(w.bucket.objects), w.bucket.objects)
    ensures r.Ok? && w.calm && w.bucket.reliable ==>
              BackupsLeft(w.cfg, old(w.bucket.objects), w.bucket.objects, now, snap)
    ensures Stopped(w, r) && w.Noted(warned)
  {
    ghost var start := w.bucket.objects;
    ghost var stored, gone;
    r, warned, now, stored, gone := BackupStep(w, snap);
    BackupReaches(w.cfg, start, now, snap, stored, gone);
    if r.Ok? && w.calm && w.bucket.reliable {
      PrunedBackupsKept(w.cfg.backupKeep, start, now, snap);
    }
  }

  /** A backup and its pruning reach no live object and no archive. */
  lemma BackupReaches(cfg: Config, start: Objects, now: nat, snap: Snapshot, stored: bool, gone: set<string>)
    requires FourDigitYear(now)
    requires
      var put := if stored then start[BackupKey(now) := BackupFile(snap)] else start;
      gone != {} ==> cfg.backupKeep >= 0 && gone <= Retention.Surplus(put.Keys, cfg.backupKeep)
    ensures
      var put := if stored then start[BackupKey(now) := BackupFile(snap)] else start;
      && SameUnder(start, put - gone, ARCHIVE)
      && (SafePrefix(cfg.prefix) ==> SameLive(cfg, start, put - gone))
  {
    var put := if stored then start[BackupKey(now) := BackupFile(snap)] else start;
    if gone != {} {
      Retention.SurplusWithin(put.Keys, cfg.backupKeep);
    }
    BackupKeyPrefix(now);
    forall k | HasPrefix(k, ARCHIVE) ensures SameAt(start, put - gone, k) {
      Safety.ArchiveIsNotBackup(k);
    }
    LivePastBackup(cfg, start, now, snap);
    LivePastShedding(cfg, put, gone);
  }

  lemma LivePastBackup(cfg: Config, objects: Objects, now: nat, snap: Snapshot)
    requires FourDigitYear(now)
    ensures SafePrefix(cfg.prefix) ==> SameLive(cfg, objects, objects[BackupKey(now) := BackupFile(snap)])
  {
    if SafePrefix(cfg.prefix) {
      forall a: Artifact ensures LiveKey(cfg.prefix, a) != BackupKey(now) {
        LiveKeysSafe(cfg.prefix, a);
        BackupKeyPrefix(now);
      }
    }
  }

  lemma LivePastShedding(cfg: Config, objects: Objects, gone: set<string>)
    requires gone <= Under(objects.Keys, ARCHIVE) || gone <= Under(objects.Keys, BACKUPS)
    ensures SafePrefix(cfg.prefix) ==> SameLive(cfg, objects, objects - gone)
  {
    if SafePrefix(cfg.prefix) {
      forall a: Artifact ensures Safety.Live(cfg, objects - gone, a) == Safety.Live(cfg, objects, a) {
        Safety.LiveShed(cfg, objects, gone, a);
      }
    }
  }

  /** The r2_cleanup step and what it leaves. */
  method CleanUp(w: Host) returns (r: Step)
    requires w.Valid() && w.model.phase.At? && w.model.phase.stage == AfterBackup(w.cfg)
    requires w.model.phase.stage == Unwind ==> w.CurrentJob().ok
    modifies w`model, w`trace, w.bucket
    ensures w.files == old(w.files)
    ensures w.calm && w.bucket.reliable ==> (r.Ok? <==> (w.cfg.cleanup ==> w.cfg.keep >= 0)) && !r.Dead?
    ensures r.Ok? ==> w.AtStage(Unwind) && w.CurrentJob().ok && w.CurrentJob().warnings == old(w.CurrentJob().warnings)
    ensures SafePrefix(w.cfg.prefix) ==> SameLive(w.cfg, old(w.bucket.objects), w.bucket.objects)
    ensures SameUnder(old(w.bucket.objects), w.bucket.objects, BACKUPS)
    ensures r.Ok? && w.bucket.reliable ==>
              if w.cfg.cleanup then ArchivesLeft(w.cfg.keep, old(w.bucket.objects), w.bucket.objects)
              else SameUnder(old(w.bucket.objects), w.bucket.objects, ARCHIVE)
    ensures Stopped(w, r) && w.Quiet()
  {
    ghost var start := w.bucket.objects;
    ghost var done, gone, missed;
    r, done, gone, missed := CleanupStep(w);
    LivePastShedding(w.cfg, start, gone);
    forall k | HasPrefix(k, BACKUPS) ensures SameAt(start, start - gone, k) {
      BackupIsNotArchive(k);
    }
    if r.Ok? && w.bucket.reliable && w.cfg.cleanup {
      PrunedArchivesLeft(w.cfg.keep, start, done, gone);
    }
  }

  lemma BackupIsNotArchive(k: string)
    requires HasPrefix(k, BACKUPS)
    ensures !HasPrefix(k, ARCHIVE)
  {
    if HasPrefix(k, ARCHIVE) {
      Safety.ArchiveIsNotBackup(k);
    }
  }

  // ---- the weekly run -----------------------------------------------------

  predicate AtMostOneMore(before: seq<nat>, after: seq<nat>) {
    before <= after && |after| <= |before| + 1
  }

  datatype Outcome =
    | Finished(version: nat, warnings: nat)
    | Failed(warnings: nat)
    | Killed

  /** run.Weekly: fetch, check, sync, snapshot, export, validate, upload, backup,
      prune.  A failed sync or backup adds a warning and the run goes on; any other
      error ends it, after the deferred cleanup of the snapshot.

      However it goes, the recorded trace is legal.  A run that finishes has put
      exactly one index, with the version it reports; one that does not has put at
      most one.  Unless the process dies no snapshot file stays behind, and the run
      reports one warning for each failed sync or backup that its trace records.

      A run that finishes leaves the exported bundle, meta and index live, under the
      next number; what else it leaves is IsDone.  One whose export is refused leaves
      every file and every object as it was.  Without R2 no run finishes, and none puts
      or deletes an object.

      When nothing fails by itself, the run finishes, without a warning, exactly
      when the database it finds, fetched or local, has content, R2 is configured and
      its export can be published. */
  method Weekly(w: Host, x: Option<Export>, url: string) returns (out: Outcome, ghost rep: Report)
    requires w.Ended()
    modifies w, w.bucket
    ensures w.Ended()
    ensures out.Finished? ==>
              && w.db == Some(rep.snap)
              && IsDone(w.cfg, w.calm && w.bucket.reliable, old(w.files), old(w.bucket.objects), x, url,
                        out.version, rep, w.files, w.bucket.objects)
    ensures !PassesGuard(old(w.files), x) ==>
              !out.Finished? && w.files == old(w.files) && w.bucket.objects == old(w.bucket.objects)
    ensures !w.cfg.r2 ==> !out.Finished? && w.bucket.objects == old(w.bucket.objects)
                          && w.model.past.published == old(w.model.past.published)
    ensures w.calm && w.bucket.reliable ==>
              && (out.Finished? <==>
                    HasContent(rep.found) && CanPublish(w.cfg, old(w.files), old(w.bucket.objects), x, url))
              && !out.Killed? && rep.fetched && out.warnings == 0
    ensures IsFound(w.cfg, w.calm, old(w.db), rep.found)
    ensures old(w.trace) + [Begin] <= w.trace
    ensures !out.Killed? ==> out.warnings == Warnings(w.trace[|old(w.trace)|..])
    ensures out.Finished? ==> w.model.past.published == old(w.model.past.published) + [out.version]
    ensures out.Finished? ==> out.warnings <= 2
    ensures AtMostOneMore(old(w.model.past.published), w.model.past.published)
    ensures !out.Killed? ==> w.temps == old(w.temps)
  {
    ghost var recorded := w.trace;
    CountedSoFar(w);
    out, rep := RunOnce(w, x, url);
    CountedSoFar(w);
    WarningsSince(recorded, w.trace);
  }

  /** The history has counted the warnings of the trace. */
  lemma CountedSoFar(w: Host)
    requires w.Valid()
    ensures w.model.past.warned == w.start.past.warned + Warnings(w.trace)
  {
    WarnedAlong(w.cfg, w.start, w.trace);
  }

  lemma WarningsSince(recorded: seq<Event>, trace: seq<Event>)
    requires recorded <= trace
    ensures Warnings(trace) == Warnings(recorded) + Warnings(trace[|recorded|..])
  {
    assert trace == recorded + trace[|recorded|..];
    WarningsConcat(recorded, trace[|recorded|..]);
  }

  method RunOnce(w: Host, x: Option<Export>, url: string) returns (out: Outcome, ghost rep: Report)
    requires w.Ended()
    modifies w, w.bucket
    ensures w.Ended()
    ensures out.Finished? ==>
              && w.db == Some(rep.snap)
              && IsDone(w.cfg, w.calm && w.bucket.reliable, old(w.files), old(w.bucket.objects), x, url,
                        out.version, rep, w.files, w.bucket.objects)
    ensures !PassesGuard(old(w.files), x) ==>
              !out.Finished? && w.files == old(w.files) && w.bucket.objects == old(w.bucket.objects)
    ensures !w.cfg.r2 ==> !out.Finished? && w.bucket.objects == old(w.bucket.objects)
                          && w.model.past.published == old(w.model.past.published)
    ensures w.calm && w.bucket.reliable ==>
              && (out.Finished? <==>
                    HasContent(rep.found) && CanPublish(w.cfg, old(w.files), old(w.bucket.objects), x, url))
              && !out.Killed? && rep.fetched && out.warnings == 0
    ensures IsFound(w.cfg, w.calm, old(w.db), rep.found)
    ensures old(w.trace) + [Begin] <= w.trace && (!out.Killed? ==> w.Told(out.warnings))
    ensures out.Finished? ==> w.model.past.published == old(w.model.past.published) + [out.version]
    ensures out.Finished? ==> out.warnings <= 2
    ensures AtMostOneMore(old(w.model.past.published), w.model.past.published)
    ensures !out.Killed? ==> w.temps == old(w.temps)
  {
    rep := NO_REPORT;
    w.BeginRun();
    var r, snap, warnings;
    ghost var found;
    r, snap, warnings, found := Prepare(w);
    rep := rep.(found := found);
    if r.Dead? { return Killed, rep; }
    if r.Err? { return Failed(warnings), rep; }
    out, rep := PublishAndCleanUp(w, snap, x, url, warnings, found);
  }

  /** The part of a run that has a snapshot, and its deferred cleanup. */
  method PublishAndCleanUp(
    w: Host, snap: Snapshot, x: Option<Export>, url: string, before: nat, ghost found: Option<Snapshot>)
      returns (out: Outcome, ghost rep: Report)
    requires w.AtStage(GuardExport) && w.CurrentJob().warnings == before && w.CurrentJob().snap == snap
    requires w.temps > 0
    modifies w`files, w`clock, w`temps, w`model, w`trace, w.bucket
    ensures w.Ended() && rep.found == found && rep.snap == snap
    ensures out.Finished? ==>
              IsDone(w.cfg, w.calm && w.bucket.reliable, old(w.files), old(w.bucket.objects), x, url,
                     out.version, rep, w.files, w.bucket.objects)
    ensures w.calm && w.bucket.reliable ==>
              && (out.Finished? <==> CanPublish(w.cfg, old(w.files), old(w.bucket.objects), x, url))
              && !out.Killed? && rep.fetched && out.warnings == before
    ensures !PassesGuard(old(w.files), x) ==>
              !out.Finished? && w.files == old(w.files) && w.bucket.objects == old(w.bucket.objects)
    ensures !w.cfg.r2 ==> !out.Finished? && w.bucket.objects == old(w.bucket.objects)
                          && w.model.past.published == old(w.model.past.published)
    ensures out.Finished? ==> w.model.past.published == old(w.model.past.published) + [out.version]
    ensures !out.Killed? ==> before <= out.warnings <= before + 1 && w.Told(out.warnings - before)
    ensures old(w.trace) <= w.trace
    ensures AtMostOneMore(old(w.model.past.published), w.model.past.published)
    ensures !out.Killed? ==> w.temps == old(w.temps) - 1
  {
    var r, version, warnings;
    r, version, warnings, rep := Publish(w, snap, x, url, before, found);
    if r.Dead? { return Killed, rep; }
    out := if r.Ok? then Finished(version, warnings) else Failed(warnings);
    r := w.Cleanup();
    if r.Dead? { return Killed, rep; }
  }

  /** Everything up to and including the snapshot. */
  method Prepare(w: Host) returns (r: Step, snap: Snapshot, warnings: nat, ghost found: Option<Snapshot>)
    requires w.AtStage(if w.cfg.fetchProd then FetchDb else CheckDb) && w.CurrentJob() == NEW_JOB
    modifies w`db, w`temps, w`model, w`trace
    ensures w.calm ==> !r.Dead? && warnings == 0 && (r.Ok? <==> HasContent(found))
    ensures IsFound(w.cfg, w.calm, old(w.db), found)
    ensures r.Ok? ==> w.AtStage(GuardExport) && w.temps == old(w.temps) + 1 && HasContent(found)
    ensures r.Ok? ==> w.CurrentJob().warnings == warnings && w.CurrentJob().snap == snap && w.db == Some(snap)
    ensures !r.Ok? ==> w.Ended() && w.temps == old(w.temps)
    ensures warnings <= 1 && w.Noted(warnings)
  {
    warnings, snap := 0, [];
    r, found := FindDatabase(w);
    if !r.Ok? { return; }
    r, warnings := SyncIfAsked(w);
    if !r.Ok? { return; }
    r, snap := w.TakeBackup();
  }

  /** The sync, if so configured; its failure is a warning. */
  method SyncIfAsked(w: Host) returns (r: Step, warnings: nat)
    requires w.AtStage(if w.cfg.sync then SyncDb else TakeSnapshot) && HasContent(w.db)
    modifies w`db, w`model, w`trace
    ensures r.Ok? ==> w.AtStage(TakeSnapshot) && w.db.Some?
    ensures r.Ok? ==> w.CurrentJob().warnings == old(w.CurrentJob().warnings) + warnings
    ensures !r.Err? && (r.Dead? ==> w.Ended())
    ensures w.temps == old(w.temps) && (w.calm ==> r.Ok? && warnings == 0)
    ensures warnings <= 1 && w.Noted(warnings)
  {
    if !w.cfg.sync { return Ok, 0; }
    r := w.Sync();
    if r.Err? { return Ok, 1; }
    warnings := 0;
  }

  /** The database is fetched, if so configured, and checked. */
  method FindDatabase(w: Host) returns (r: Step, ghost found: Option<Snapshot>)
    requires w.AtStage(if w.cfg.fetchProd then FetchDb else CheckDb)
    modifies w`db, w`model, w`trace
    ensures w.temps == old(w.temps)
    ensures r.Ok? ==> w.AtStage(if w.cfg.sync then SyncDb else TakeSnapshot) && w.CurrentJob() == old(w.CurrentJob())
    ensures r.Ok? ==> HasContent(w.db) && w.db == found
    ensures !r.Ok? ==> w.Ended()
    ensures w.calm ==> !r.Dead? && (r.Ok? <==> HasContent(found))
    ensures IsFound(w.cfg, w.calm, old(w.db), found)
    ensures w.Quiet()
  {
    r, found := FetchIfAsked(w);
    if !r.Ok? { return; }
    r := w.CheckDatabase();
  }

  method FetchIfAsked(w: Host) returns (r: Step, ghost found: Option<Snapshot>)
    requires w.AtStage(if w.cfg.fetchProd then FetchDb else CheckDb)
    modifies w`db, w`model, w`trace
    ensures r.Ok? ==> w.AtStage(CheckDb) && w.CurrentJob() == old(w.CurrentJob()) && found == w.db
    ensures !r.Ok? ==> w.Ended() && found.None?
    ensures w.calm ==> !r.Dead?
    ensures IsFound(w.cfg, w.calm, old(w.db), found)
    ensures w.Quiet()
  {
    if !w.cfg.fetchProd { return Ok, w.db; }
    r := w.FetchProd();
    found := if r.Ok? then w.db else None;
  }

  /** Export, validation, upload, backup and pruning. */
  method Publish(
    w: Host, snap: Snapshot, x: Option<Export>, url: string, before: nat, ghost found: Option<Snapshot>)
      returns (r: Step, version: nat, warnings: nat, ghost rep: Report)
    requires w.AtStage(GuardExport) && w.CurrentJob().warnings == before && w.CurrentJob().snap == snap
    modifies w`files, w`clock, w`model, w`trace, w.bucket
    ensures rep.found == found && rep.snap == snap
    ensures r.Ok? ==> Succeeding(w, before, warnings)
    ensures r.Ok? ==> w.model.past.published == old(w.model.past.published) + [version]
    ensures r.Ok? ==>
              IsDone(w.cfg, w.calm && w.bucket.reliable, old(w.files), old(w.bucket.objects), x, url,
                     version, rep, w.files, w.bucket.objects)
    ensures w.calm && w.bucket.reliable ==>
              && (r.Ok? <==> CanPublish(w.cfg, old(w.files), old(w.bucket.objects), x, url))
              && rep.fetched && !r.Dead? && warnings == before
    ensures !PassesGuard(old(w.files), x) ==>
              !r.Ok? && w.files == old(w.files) && w.bucket.objects == old(w.bucket.objects)
    ensures !w.cfg.r2 ==> !r.Ok? && w.bucket.objects == old(w.bucket.objects)
                          && w.model.past.published == old(w.model.past.published)
    ensures before <= warnings <= before + 1 && w.Told(warnings - before)
    ensures Stopped(w, r)
    ensures AtMostOneMore(old(w.model.past.published), w.model.past.published)
  {
    warnings, rep := before, NO_REPORT.(found := found, snap := snap);
    ghost var fetched;
    r, version, fetched := ExportValid(w, x, url);
    rep := rep.(fetched := fetched);
    if !r.Ok? { return; }
    r, warnings, rep := UploadAndPrune(w, snap, version, before, rep);
  }

  /** The run is on its way out with success and these warnings, at most one more than
      before. */
  ghost predicate Succeeding(w: Host, before: nat, warnings: nat)
    reads w, w.bucket
  {
    w.AtStage(Unwind) && w.CurrentJob().ok && before <= warnings <= before + 1 && w.CurrentJob().warnings == warnings
  }

  method UploadAndPrune(w: Host, snap: Snapshot, version: nat, before: nat, ghost rep0: Report)
      returns (r: Step, warnings: nat, ghost rep: Report)
    requires w.AtStage(Connect) && w.CurrentJob().warnings == before && w.CurrentJob().snap == snap
    requires w.CurrentJob().index.version == version && Index in w.files && rep0.snap == snap
    modifies w`clock, w`model, w`trace, w.bucket
    ensures w.files == old(w.files)
    ensures rep == rep0.(archivedAt := rep.archivedAt, backupAt := rep.backupAt)
    ensures r.Ok? ==> Succeeding(w, before, warnings)
    ensures r.Ok? ==> w.model.past.published == old(w.model.past.published) + [version]
    ensures r.Ok? ==> FourDigitYear(rep.archivedAt) && FourDigitYear(rep.backupAt)
    ensures r.Ok? && SafePrefix(w.cfg.prefix) ==>
              LiveAfter(w.cfg, w.calm && w.bucket.reliable, old(w.bucket.objects), w.bucket.objects, w.files, version, rep)
    ensures w.calm && w.bucket.reliable ==>
              (r.Ok? <==> w.cfg.r2 && Prunable(w.cfg)) && !r.Dead? && warnings == before
    ensures !w.cfg.r2 ==> !r.Ok? && w.bucket.objects == old(w.bucket.objects) && w.Quiet()
    ensures before <= warnings <= before + 1 && w.Told(warnings - before)
    ensures Stopped(w, r) && AtMostOneMore(old(w.model.past.published), w.model.past.published)
  {
    warnings, rep := before, rep0;
    ghost var start, now, backupAt := w.bucket.objects, 0, 0;
    r, now := UploadStep(w, version);
    if !r.Ok? { return; }
    ghost var uploaded := w.bucket.objects;
    r, warnings, backupAt := AfterTheUpload(w, snap, before);
    rep := rep.(archivedAt := now, backupAt := backupAt);
    if r.Ok? && SafePrefix(w.cfg.prefix) {
      StillLocal(w.cfg, uploaded, w.bucket.objects, w.files);
      if w.calm && w.bucket.reliable {
        RetainedThrough(w.cfg, start, uploaded, w.bucket.objects, w.files, version, rep);
      }
    }
  }

  /** The remote half of IsDone. */
  ghost predicate LiveAfter(
    cfg: Config, quiet: bool, before: Objects, after: Objects, files: Files, version: nat, rep: Report)
    requires FourDigitYear(rep.archivedAt) && FourDigitYear(rep.backupAt)
  {
    && LiveIsLocal(cfg, after, files)
    && (quiet ==> Safety.Live(cfg, after, Delta).None? && IsRetained(cfg, before, after, files, version, rep))
  }

  lemma RetainedThrough(
    cfg: Config, start: Objects, uploaded: Objects, end: Objects, files: Files, version: nat, rep: Report)
    requires FourDigitYear(rep.archivedAt) && FourDigitYear(rep.backupAt)
    requires SameUnder(start, uploaded, BACKUPS)
    requires SameUnder(Copied(start, files, version, rep.archivedAt), uploaded, ARCHIVE)
    requires IsLeft(cfg, uploaded, end, rep.backupAt, rep.snap)
    ensures IsRetained(cfg, start, end, files, version, rep)
  {
    SameBackups(start, uploaded);
    if cfg.dbBackup && |Backups(start)| + 1 - cfg.backupKeep <= MAX_KEYS {
      BackupsKeptSame(cfg.backupKeep, uploaded, start, end, end, rep.backupAt, rep.snap);
    }
    if cfg.cleanup {
      ArchivesLeftSame(cfg.keep, uploaded, Copied(start, files, version, rep.archivedAt), end);
    }
  }

  /** The export and its validation. */
  method ExportValid(w: Host, x: Option<Export>, url: string) returns (r: Step, version: nat, ghost fetched: bool)
    requires w.AtStage(GuardExport)
    modifies w`files, w`model, w`trace
    ensures r.Ok? ==> w.AtStage(Connect) && w.CurrentJob().index.version == version && Index in w.files
    ensures r.Ok? ==> w.CurrentJob().warnings == old(w.CurrentJob().warnings)
    ensures r.Ok? ==> w.CurrentJob().snap == old(w.CurrentJob().snap)
    ensures r.Ok? ==> IsPublished(w.cfg, old(w.files), w.bucket.objects, x, fetched, url, version, w.files)
    ensures w.calm && r.Ok? ==> HistoryWritten(old(w.files), w.files, x.value.meta) && Delta !in w.files
    ensures w.calm ==>
              && (r.Ok? <==> ExportIsValid(w.cfg, old(w.files), w.bucket.objects, x, true, url))
              && fetched && !r.Dead?
    ensures !PassesGuard(old(w.files), x) ==> !r.Ok? && w.files == old(w.files)
    ensures Stopped(w, r) && w.Quiet()
  {
    r, version, fetched := Export(w, x, url);
    if !r.Ok? { return; }
    ValidIsPublished(w.cfg, w.calm, old(w.files), w.bucket.objects, x, fetched, url, version, w.files);
    r := w.ValidateArtifacts();
  }

  // ---- bootstrap ----------------------------------------------------------

  /** run.SeedDB: from the production source when there is one, otherwise from the
      newest backup in the bucket. */
  method SeedDB(w: Host) returns (r: Step, ghost key: string)
    requires w.Ended()
    modifies w`db, w`model, w`trace
    ensures w.Ended() && !r.Dead? && w.Quiet()
    ensures r.Err? ==> w.db == old(w.db) && w.trace == old(w.trace)
    ensures r.Ok? ==> w.db.Some?
    ensures r.Ok? ==> w.trace == old(w.trace) + [if w.cfg.prodSource then Seeded(w.db.value) else Restored]
    ensures r.Ok? && !w.cfg.prodSource ==>
              w.cfg.r2 && NewestBackup(w.bucket.objects, key) && w.db == Some(w.bucket.objects[key].db)
    ensures w.calm && w.bucket.reliable && !w.cfg.prodSource && w.cfg.r2 ==>
              ((exists k :: NewestBackup(w.bucket.objects, k)) <==> r.Ok?)
    ensures w.calm && w.cfg.prodSource ==> r.Ok?
  {
    key := "";
    if w.cfg.prodSource {
      r := w.SeedFromSource();
    } else if !w.cfg.r2 {
      r := Err;
    } else {
      r, key := w.RestoreNewest();
    }
  }

  /** run.Bootstrap: seed the database if there is none, then publish.

      A host that had no database records first how it was seeded: from the production
      source if there is one, and otherwise it publishes nothing unless it has restored
      the newest backup in the bucket.  The rest is as for Weekly. */
  method Bootstrap(w: Host, x: Option<Export>, url: string)
      returns (out: Outcome, ghost rep: Report, ghost seeded: Option<Snapshot>, ghost key: string)
    requires w.Ended()
    modifies w, w.bucket
    ensures w.Ended()
    ensures out.Finished? ==>
              && w.db == Some(rep.snap)
              && IsDone(w.cfg, w.calm && w.bucket.reliable, old(w.files), old(w.bucket.objects), x, url,
                        out.version, rep, w.files, w.bucket.objects)
    ensures out.Finished? ==> w.model.past.published == old(w.model.past.published) + [out.version]
    ensures AtMostOneMore(old(w.model.past.published), w.model.past.published)
    ensures !PassesGuard(old(w.files), x) || !w.cfg.r2 ==>
              !out.Finished? && w.bucket.objects == old(w.bucket.objects)
    ensures w.model.past.published != old(w.model.past.published) && old(w.db).None? && !w.cfg.prodSource ==>
              NewestBackup(old(w.bucket.objects), key) && seeded == Some(old(w.bucket.objects)[key].db)
    ensures old(w.db).Some? ==> seeded == old(w.db)
    ensures
      if old(w.db).Some? then old(w.trace) + [Begin] <= w.trace
      else if seeded.None? then w.trace == old(w.trace)
      else old(w.trace) + [if w.cfg.prodSource then Seeded(seeded.value) else Restored] + [Begin] <= w.trace
    ensures !out.Killed? ==> out.warnings == Warnings(w.trace[|old(w.trace)|..])
    ensures w.calm && w.bucket.reliable ==>
              (out.Finished? <==>
                 HasContent(rep.found) && CanPublish(w.cfg, old(w.files), old(w.bucket.objects), x, url))
    ensures IsFound(w.cfg, w.calm, seeded, rep.found)
    ensures w.calm && w.bucket.reliable && old(w.db).None? && !w.cfg.prodSource && w.cfg.r2 ==>
              forall k :: NewestBackup(old(w.bucket.objects), k) ==>
                seeded == Some(old(w.bucket.objects)[k].db)
  {
    key, rep := "", NO_REPORT;
    seeded := w.db;
    ghost var objects, recorded := w.bucket.objects, w.trace;
    if w.db.None? {
      var r;
      r, key := SeedDB(w);
      if !r.Ok? { return Failed(0), rep, seeded, key; }
      if !w.cfg.prodSource {
        OnlyNewest(objects, key);
      }
      seeded := w.db;
    }
    ghost var ready := w.trace;
    out, rep := Weekly(w, x, url);
    SeedIsNoWarning(recorded, ready, w.trace);
  }

  /** How a host was seeded is no warning. */
  lemma SeedIsNoWarning(recorded: seq<Event>, ready: seq<Event>, trace: seq<Event>)
    requires recorded <= ready <= trace
    requires ready == recorded || (exists e :: !IsWarning(e) && ready == recorded + [e])
    ensures Warnings(trace[|recorded|..]) == Warnings(trace[|ready|..])
  {
    WarningsSince(recorded, trace);
    WarningsSince(ready, trace);
    if ready != recorded {
      var e :| !IsWarning(e) && ready == recorded + [e];
      WarningsConcat(recorded, [e]);
      assert [e][1..] == [];
    }
  }

  // ---- the theorems about runs hold of the program ------------------------

  /** Whatever a host has done since it was fresh, by any sequence of the methods
      above, its trace is a legal one: so the versions it has put increase, its live
      pair is coherent outside the upload window, and its last backup is there. */
  lemma HostIsSafe(w: Host)
    requires w.Valid() && Fresh(w.start) && SafePrefix(w.cfg.prefix)
    ensures Legal(w.cfg, w.start, w.trace) && Safety.Inv(w.cfg, w.model)
    ensures Runs.FetchReliable(w.cfg, w.start, w.trace) ==> Safety.VersionInv(w.cfg, w.model)
    ensures w.cfg.backupKeep >= 1 ==> Safety.BackupInv(w.model)
  {
    Safety.FreshInv(w.cfg, w.start);
    Runs.InvAlong(w.cfg, w.start, w.trace);
    if Runs.FetchReliable(w.cfg, w.start, w.trace) {
      Runs.VersionAlong(w.cfg, w.start, w.trace);
    }
    if w.cfg.backupKeep >= 1 {
      Runs.BackupAlong(w.cfg, w.start, w.trace);
    }
  }
}
