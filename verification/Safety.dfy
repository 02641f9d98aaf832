/** Invariants of every reachable state of the publisher. */
module Safety {
  import opened Text
  import opened Calendar
  import opened Store
  import opened Names
  import opened Buckets
  import opened Protocol
  import Retention
  import ShrinkGuard
  import Validate

  // ---- what an event does to the bucket -----------------------------------

  function Live(cfg: Config, bucket: Objects, a: Artifact): Option<Content> {
    var k := LiveKey(cfg.prefix, a);
    if k in bucket then Some(bucket[k]) else None
  }

  predicate PutsLive(s: State, e: Event, a: Artifact) {
    && e.Put? && s.phase.At?
    && s.phase.stage in {PutGz, PutMeta, PutIndex} && PutArtifact(s.phase.stage) == a
  }

  /** A live artifact changes only by its own put. */
  predicate LiveFramed(cfg: Config, s: State, e: Event, after: Objects, a: Artifact) {
    && (PutsLive(s, e, a) ==> a in s.files && Live(cfg, after, a) == Some(s.files[a]))
    && (!PutsLive(s, e, a) ==> Live(cfg, after, a) == Live(cfg, s.bucket, a))
  }

  lemma LivePut(cfg: Config, s: State, e: Event, a: Artifact)
    requires SafePrefix(cfg.prefix) && Enabled(cfg, s, e) && e.Put? && a in {Gz, Meta, Index}
    ensures LiveFramed(cfg, s, e, BucketAfter(cfg, s, e), a)
  {
    var stage, job := s.phase.stage, s.phase.job;
    var key := PutKey(cfg, stage, job);
    if stage.ArchiveIndex? || stage.ArchiveGz? {
      ArchiveKeyPrefix(job.index.version, job.archivedAt, PutArtifact(stage));
      LiveKeysSafe(cfg.prefix, a);
      LiveOther(cfg, s.bucket, key, s.files[PutArtifact(stage)], a);
    } else {
      LiveKeysDistinct(cfg.prefix, PutArtifact(stage), a);
    }
  }

  lemma LiveShed(cfg: Config, bucket: Objects, gone: set<string>, a: Artifact)
    requires SafePrefix(cfg.prefix)
    requires gone <= Under(bucket.Keys, ARCHIVE) || gone <= Under(bucket.Keys, BACKUPS)
    ensures Live(cfg, bucket - gone, a) == Live(cfg, bucket, a)
  {
    LiveKeysSafe(cfg.prefix, a);
  }

  lemma LiveOther(cfg: Config, bucket: Objects, k: string, c: Content, a: Artifact)
    requires k != LiveKey(cfg.prefix, a)
    ensures Live(cfg, bucket[k := c], a) == Live(cfg, bucket, a)
    ensures Live(cfg, bucket - {k}, a) == Live(cfg, bucket, a)
  {
  }

  /** With a safe prefix neither archiving nor backing up nor pruning reaches a
      live bundle, meta or index. */
  lemma LiveFrame(cfg: Config, s: State, e: Event, a: Artifact)
    requires SafePrefix(cfg.prefix) && Enabled(cfg, s, e) && a in {Gz, Meta, Index}
    ensures LiveFramed(cfg, s, e, BucketAfter(cfg, s, e), a)
  {
    if e.Put? {
      LivePut(cfg, s, e, a);
    } else if e.DroppedDelta? {
      LiveKeysDistinct(cfg.prefix, Delta, a);
      LiveOther(cfg, s.bucket, LiveKey(cfg.prefix, Delta), Torn([]), a);
    } else if e.BackedUp? {
      BackupKeyPrefix(e.now);
      LiveKeysSafe(cfg.prefix, a);
      LiveOther(cfg, s.bucket, BackupKey(e.now), BackupFile(s.phase.job.snap), a);
    } else if e.BackupsShed? {
      if e.gone != {} {
        Retention.SurplusWithin(s.bucket.Keys, cfg.backupKeep);
      }
      LiveShed(cfg, s.bucket, e.gone, a);
    } else if e.ArchivesShed? {
      LiveShed(cfg, s.bucket, e.gone, a);
    }
  }

  /** Only the two backup events change the backups. */
  ghost predicate BackupsFramed(s: State, e: Event, after: Objects) {
    if e.BackedUp? then
      && s.phase.At? && FourDigitYear(e.now)
      && after == s.bucket[BackupKey(e.now) := BackupFile(s.phase.job.snap)]
    else if e.BackupsShed? then after == s.bucket - e.gone
    else forall k :: HasPrefix(k, BACKUPS) ==>
      (k in after <==> k in s.bucket) && (k in after ==> after[k] == s.bucket[k])
  }

  lemma BackupFrame(cfg: Config, s: State, e: Event)
    requires SafePrefix(cfg.prefix) && Enabled(cfg, s, e)
    ensures BackupsFramed(s, e, BucketAfter(cfg, s, e))
  {
    if e.Put? {
      BackupFrameOfPut(cfg, s, e);
    } else if e.DroppedDelta? {
      LiveKeysSafe(cfg.prefix, Delta);
    } else if e.ArchivesShed? {
      forall k | k in e.gone ensures !HasPrefix(k, BACKUPS) {
        ArchiveIsNotBackup(k);
      }
    }
  }

  lemma BackupFrameOfPut(cfg: Config, s: State, e: Event)
    requires SafePrefix(cfg.prefix) && Enabled(cfg, s, e) && e.Put?
    ensures BackupsFramed(s, e, BucketAfter(cfg, s, e))
  {
    var stage, job := s.phase.stage, s.phase.job;
    if stage in {ArchiveIndex, ArchiveGz} {
      ArchiveKeyPrefix(job.index.version, job.archivedAt, PutArtifact(stage));
    } else {
      LiveKeysSafe(cfg.prefix, PutArtifact(stage));
    }
  }

  lemma ArchiveIsNotBackup(k: string)
    requires HasPrefix(k, ARCHIVE)
    ensures !HasPrefix(k, BACKUPS)
  {
    assert k[0] == k[..8][0] == 'a';
    NotPrefix(k, BACKUPS);
  }

  // ---- the local files during a run ---------------------------------------

  predicate Past(phase: Phase, s: Stage) {
    phase.At? && Rank(s) < Rank(phase.stage) < Rank(Unwind)
  }

  predicate GzInv(files: Files, phase: Phase) {
    Past(phase, WriteGz) ==> Gz in files && files[Gz] == BundleFile(phase.job.x.bundle)
  }

  predicate MetaInv(files: Files, phase: Phase) {
    Past(phase, WriteMeta) ==> Meta in files && files[Meta] == MetaFile(phase.job.x.meta)
  }

  predicate AdvanceInv(phase: Phase) {
    Past(phase, ReadPrevious) ==>
      var job := phase.job;
      job.index.fullVersion == job.index.version && job.index.fullSha == job.x.meta.fullSha
  }

  predicate IndexInv(files: Files, phase: Phase) {
    Past(phase, WriteIndex) ==> Index in files && files[Index] == IndexFile(phase.job.index)
  }

  /** Within a run the files written so far are whole and are this run's. */
  predicate FilesInv(files: Files, phase: Phase) {
    GzInv(files, phase) && MetaInv(files, phase) && AdvanceInv(phase) && IndexInv(files, phase)
  }

  /** A run comes past a write only by that write. */
  lemma PastFrom(cfg: Config, s: State, e: Event, write: Stage)
    requires InPlace(cfg, s.phase, e) && IsWrite(write) && Past(PhaseAfter(cfg, s, e), write)
    ensures s.phase.At? && (Past(s.phase, write) || (s.phase.stage == write && e.Wrote?))
    ensures PhaseAfter(cfg, s, e).job.x == s.phase.job.x
    ensures write == WriteIndex ==> PhaseAfter(cfg, s, e).job.index == s.phase.job.index
  {
    if s.phase.At? {
      XKept(cfg, s, e, write);
    }
  }

  lemma XKept(cfg: Config, s: State, e: Event, write: Stage)
    requires InPlace(cfg, s.phase, e) && IsWrite(write) && Past(PhaseAfter(cfg, s, e), write) && s.phase.At?
    ensures PhaseAfter(cfg, s, e).job.x == s.phase.job.x
    ensures write == WriteIndex ==> PhaseAfter(cfg, s, e).job.index == s.phase.job.index
  {
  }

  /** A written file is as written until the next run. */
  lemma WrittenFileStays(cfg: Config, s: State, e: Event, write: Stage)
    requires InPlace(cfg, s.phase, e) && s.phase.At? && IsWrite(write) && !e.WipeOut?
    ensures
      var a, files := WriteArtifact(write), FilesAfter(s.files, s.phase, e);
      && (Past(s.phase, write) && a in s.files ==> a in files && files[a] == s.files[a])
      && (s.phase.stage == write && e.Wrote? ==> a in files && files[a] == WriteContent(write, s.phase.job))
  {
  }

  lemma GzStep(cfg: Config, s: State, e: Event)
    requires GzInv(s.files, s.phase) && InPlace(cfg, s.phase, e)
    ensures GzInv(FilesAfter(s.files, s.phase, e), PhaseAfter(cfg, s, e))
  {
    if Past(PhaseAfter(cfg, s, e), WriteGz) {
      PastFrom(cfg, s, e, WriteGz);
      WrittenFileStays(cfg, s, e, WriteGz);
    }
  }

  lemma MetaStep(cfg: Config, s: State, e: Event)
    requires MetaInv(s.files, s.phase) && InPlace(cfg, s.phase, e)
    ensures MetaInv(FilesAfter(s.files, s.phase, e), PhaseAfter(cfg, s, e))
  {
    if Past(PhaseAfter(cfg, s, e), WriteMeta) {
      PastFrom(cfg, s, e, WriteMeta);
      WrittenFileStays(cfg, s, e, WriteMeta);
    }
  }

  lemma AdvanceStep(cfg: Config, s: State, e: Event)
    requires AdvanceInv(s.phase) && InPlace(cfg, s.phase, e)
    ensures AdvanceInv(PhaseAfter(cfg, s, e))
  {
  }

  lemma IndexStep(cfg: Config, s: State, e: Event)
    requires IndexInv(s.files, s.phase) && InPlace(cfg, s.phase, e)
    ensures IndexInv(FilesAfter(s.files, s.phase, e), PhaseAfter(cfg, s, e))
  {
    if Past(PhaseAfter(cfg, s, e), WriteIndex) {
      PastFrom(cfg, s, e, WriteIndex);
      WrittenFileStays(cfg, s, e, WriteIndex);
    }
  }

  /** What is uploaded has passed validation. */
  predicate DirInv(files: Files, phase: Phase) {
    Past(phase, CheckDir) ==> Validate.ValidDir(files)
  }

  lemma DirStep(cfg: Config, s: State, e: Event)
    requires DirInv(s.files, s.phase) && Enabled(cfg, s, e)
    ensures DirInv(FilesAfter(s.files, s.phase, e), PhaseAfter(cfg, s, e))
  {
    if Past(PhaseAfter(cfg, s, e), CheckDir) {
      PastCheck(cfg, s, e);
    }
  }

  /** A run comes past its validation only by it, and then writes no file. */
  lemma PastCheck(cfg: Config, s: State, e: Event)
    requires InPlace(cfg, s.phase, e) && Past(PhaseAfter(cfg, s, e), CheckDir)
    ensures (Past(s.phase, CheckDir) || e.Validated?) && FilesAfter(s.files, s.phase, e) == s.files
  {
  }

  predicate ArchiveInv(phase: Phase) {
    phase.At? && Rank(NameArchive) < Rank(phase.stage) <= Rank(ArchiveGz) ==> FourDigitYear(phase.job.archivedAt)
  }

  lemma ArchiveStep(cfg: Config, s: State, e: Event)
    requires ArchiveInv(s.phase) && Enabled(cfg, s, e)
    ensures ArchiveInv(PhaseAfter(cfg, s, e))
  {
    var after := PhaseAfter(cfg, s, e);
    if after.At? && Rank(NameArchive) < Rank(after.stage) <= Rank(ArchiveGz) {
      ArchiveNamed(cfg, s, e);
    }
  }

  lemma ArchiveNamed(cfg: Config, s: State, e: Event)
    requires InPlace(cfg, s.phase, e)
    requires
      var after := PhaseAfter(cfg, s, e);
      after.At? && Rank(NameArchive) < Rank(after.stage) <= Rank(ArchiveGz)
    ensures s.phase.At?
    ensures
      var at := PhaseAfter(cfg, s, e).job.archivedAt;
      || (e.Stamped? && at == e.now)
      || (Rank(NameArchive) < Rank(s.phase.stage) <= Rank(ArchiveGz) && at == s.phase.job.archivedAt)
  {
  }

  // ---- versions -----------------------------------------------------------

  ghost predicate Increasing(vs: seq<nat>) {
    forall i, j :: 0 <= i < j < |vs| ==> vs[i] < vs[j]
  }

  /** Versions never regress: the versions put increase, the live index carries the
      last of them, and a local index that parses is never behind the live one. */
  ghost predicate VersionInv(cfg: Config, s: State) {
    var live := Live(cfg, s.bucket, Index);
    && Increasing(s.past.published)
    && (live.None? <==> s.past.published == [])
    && (live.Some? ==> live.value.IndexFile? && live.value.index.version == s.past.published[|s.past.published| - 1])
    && (LocalVersion(s.files).Some? ==> LocalVersion(s.files).value >= LiveVersion(cfg.prefix, s.bucket))
    && (s.phase.At? && Rank(ReadPrevious) < Rank(s.phase.stage) <= Rank(PutIndex) ==>
          s.phase.job.index.version > LiveVersion(cfg.prefix, s.bucket))
  }

  /** The previous version can be trusted: the local index parses, or the live one
      could be fetched, or nothing has been published. */
  predicate FetchHolds(cfg: Config, s: State, e: Event) {
    e.ReadIndex? ==>
      LocalVersion(s.files).Some? || e.fetched || Live(cfg, s.bucket, Index).None?
  }

  predicate Between(phase: Phase, lo: Stage, hi: Stage) {
    phase.At? && Rank(lo) < Rank(phase.stage) <= Rank(hi)
  }

  /** The index a run is about to publish is computed at ReadIndex and kept until
      its put. */
  ghost predicate IndexView(cfg: Config, s: State, e: Event, t: State) {
    Between(t.phase, ReadPrevious, PutIndex) ==>
      if e.ReadIndex? then
        t.phase.job.index.version == PreviousVersion(cfg.prefix, s.files, s.bucket, e.fetched) + 1
      else
        Between(s.phase, ReadPrevious, PutIndex) && t.phase.job.index == s.phase.job.index && !PutsLive(s, e, Index)
  }

  lemma IndexKept(cfg: Config, s: State, e: Event, t: State)
    requires InPlace(cfg, s.phase, e) && t.phase == PhaseAfter(cfg, s, e)
    ensures IndexView(cfg, s, e, t)
  {
    if !e.ReadIndex? && Between(t.phase, ReadPrevious, PutIndex) {
      OnTheWayToPut(cfg, s, e);
    }
  }

  lemma OnTheWayToPut(cfg: Config, s: State, e: Event)
    requires InPlace(cfg, s.phase, e) && !e.ReadIndex? && Between(PhaseAfter(cfg, s, e), ReadPrevious, PutIndex)
    ensures Between(s.phase, ReadPrevious, PutIndex) && PhaseAfter(cfg, s, e).job.index == s.phase.job.index
    ensures !PutsLive(s, e, Index)
  {
  }

  ghost predicate LocalView(s: State, t: State) {
    var local := LocalVersion(t.files);
    || local.None?
    || local == LocalVersion(s.files)
    || (s.phase.At? && s.phase.stage == WriteIndex && local.value == s.phase.job.index.version)
  }

  lemma LocalVersionKept(cfg: Config, s: State, e: Event, t: State)
    requires InPlace(cfg, s.phase, e) && t.files == FilesAfter(s.files, s.phase, e)
    ensures LocalView(s, t)
  {
  }

  /** An index put publishes the index file of its run. */
  ghost predicate PublishView(s: State, e: Event, t: State) {
    if PutsLive(s, e, Index) then
      && s.phase.stage == PutIndex && t.files == s.files
      && Index in s.files && s.files[Index] == IndexFile(s.phase.job.index)
      && t.past.published == s.past.published + [s.phase.job.index.version]
    else t.past.published == s.past.published
  }

  lemma PublishedKept(cfg: Config, s: State, e: Event, t: State)
    requires InPlace(cfg, s.phase, e) && FilesInv(s.files, s.phase)
    requires t.files == FilesAfter(s.files, s.phase, e) && t.past == PastAfter(s.past, s.phase, e)
    ensures PublishView(s, e, t)
  {
  }

  lemma VersionStep(cfg: Config, s: State, e: Event, t: State)
    requires LiveFramed(cfg, s, e, t.bucket, Index)
    requires IndexView(cfg, s, e, t) && LocalView(s, t) && PublishView(s, e, t)
    requires VersionInv(cfg, s) && FetchHolds(cfg, s, e)
    ensures VersionInv(cfg, t)
  {
    if PutsLive(s, e, Index) {
      assert LocalVersion(t.files) == Some(s.phase.job.index.version);
      assert Increasing(t.past.published);
    }
  }

  /** Exactly when the next version exceeds the live one: the local index parses
      (it is never behind), the live index could be fetched, or the live version
      is 0.  Otherwise numbering restarts at 1. */
  lemma NextVersionExact(cfg: Config, s: State, fetched: bool)
    requires VersionInv(cfg, s)
    ensures
      var next := PreviousVersion(cfg.prefix, s.files, s.bucket, fetched) + 1;
      && (next > LiveVersion(cfg.prefix, s.bucket) <==>
            LocalVersion(s.files).Some? || fetched || LiveVersion(cfg.prefix, s.bucket) == 0)
      && (LocalVersion(s.files).None? && !fetched ==> next == 1)
  {
  }

  /** The number the next index carries: one more than the local index's, or than the
      live one's if there is no local index that parses and the live one was fetched;
      otherwise 1. */
  predicate IsNextNumber(files: Files, live: Option<Content>, fetched: bool, version: nat) {
    if Index in files && files[Index].IndexFile? then version == files[Index].index.version + 1
    else if fetched && live.Some? && live.value.IndexFile? then version == live.value.index.version + 1
    else version == 1
  }

  lemma NextNumber(cfg: Config, files: Files, bucket: Objects, fetched: bool)
    ensures IsNextNumber(
              files, Live(cfg, bucket, Index), fetched, PreviousVersion(cfg.prefix, files, bucket, fetched) + 1)
  {
  }

  // ---- readers ------------------------------------------------------------

  /** The live bundle is the work of the run that wrote the live index, or of a
      later one. */
  ghost predicate ReaderInv(cfg: Config, s: State) {
    var gz, index := Live(cfg, s.bucket, Gz), Live(cfg, s.bucket, Index);
    && s.past.indexRun <= s.past.bundleRun <= s.past.run
    && (index.Some? ==> gz.Some?)
    && (gz.Some? ==> gz.value.BundleFile?)
    && (s.phase.At? && Rank(PutGz) < Rank(s.phase.stage) <= Rank(PutIndex) ==>
          s.past.bundleRun == s.past.run && gz == Some(BundleFile(s.phase.job.x.bundle)))
  }

  /** Outside the window from a bundle put to the next index put, the live index
      names the live bundle, if it carries a checksum at all. */
  ghost predicate CoherentInv(cfg: Config, s: State) {
    var gz, index := Live(cfg, s.bucket, Gz), Live(cfg, s.bucket, Index);
    && (index.Some? ==> index.value.IndexFile? && index.value.index.fullVersion == index.value.index.version)
    && (!s.past.dirty && index.Some? && index.value.index.fullSha != NoDigest ==>
          gz.Some? && index.value.index.fullSha == DigestOf(gz.value))
    && (!s.past.dirty ==> !(s.phase.At? && Rank(PutGz) < Rank(s.phase.stage) <= Rank(PutIndex)))
  }

  /** The window between a run's bundle put and its index put. */
  ghost predicate WindowView(s: State, e: Event, t: State) {
    Between(t.phase, PutGz, PutIndex) ==>
      && s.phase.At? && t.phase.job.x == s.phase.job.x
      && !e.Begin? && !PutsLive(s, e, Index)
      && (PutsLive(s, e, Gz) || Between(s.phase, PutGz, PutIndex))
  }

  lemma WindowKept(cfg: Config, s: State, e: Event, t: State)
    requires InPlace(cfg, s.phase, e) && GzInv(s.files, s.phase)
    requires e.Skipped? ==> PutArtifact(s.phase.stage) !in s.files
    requires t.phase == PhaseAfter(cfg, s, e)
    ensures WindowView(s, e, t)
  {
    if Between(t.phase, PutGz, PutIndex) {
      WindowEvents(cfg, s, e);
    }
  }

  lemma WindowEvents(cfg: Config, s: State, e: Event)
    requires InPlace(cfg, s.phase, e) && Between(PhaseAfter(cfg, s, e), PutGz, PutIndex)
    ensures s.phase.At? && PhaseAfter(cfg, s, e).job.x == s.phase.job.x
    ensures s.phase.stage in {PutGz, PutMeta, DropDelta} || e.DroppedDelta?
    ensures e.Put? || e.Skipped? || e.DroppedDelta?
  {
  }

  ghost predicate RunsView(s: State, e: Event, t: State) {
    && t.past.run == s.past.run + (if e.Begin? then 1 else 0)
    && (t.past.bundleRun, t.past.indexRun, t.past.dirty) ==
       if PutsLive(s, e, Gz) then (s.past.run, s.past.indexRun, true)
       else if PutsLive(s, e, Index) then (s.past.bundleRun, s.past.run, false)
       else (s.past.bundleRun, s.past.indexRun, s.past.dirty)
  }

  lemma RunsKept(cfg: Config, s: State, e: Event, t: State)
    requires InPlace(cfg, s.phase, e) && t.past == PastAfter(s.past, s.phase, e)
    ensures RunsView(s, e, t)
  {
  }

  /** What a live put uploads. */
  ghost predicate UploadView(s: State, e: Event) {
    && (PutsLive(s, e, Gz) ==> s.phase.stage == PutGz && Gz in s.files && s.files[Gz] == BundleFile(s.phase.job.x.bundle))
    && (PutsLive(s, e, Index) ==>
          && s.phase.stage == PutIndex && Gz in s.files && s.files[Gz] == BundleFile(s.phase.job.x.bundle)
          && Index in s.files && s.files[Index].IndexFile? && Validate.IndexOk(s.files))
  }

  lemma Uploads(s: State, e: Event)
    requires FilesInv(s.files, s.phase) && DirInv(s.files, s.phase)
    ensures UploadView(s, e)
  {
  }

  lemma ReaderStep(cfg: Config, s: State, e: Event, t: State)
    requires LiveFramed(cfg, s, e, t.bucket, Gz) && LiveFramed(cfg, s, e, t.bucket, Index)
    requires WindowView(s, e, t) && RunsView(s, e, t) && UploadView(s, e)
    requires ReaderInv(cfg, s)
    ensures ReaderInv(cfg, t)
    ensures s.past.bundleRun <= t.past.bundleRun && s.past.indexRun <= t.past.indexRun
  {
  }

  lemma CoherentStep(cfg: Config, s: State, e: Event, t: State)
    requires LiveFramed(cfg, s, e, t.bucket, Gz) && LiveFramed(cfg, s, e, t.bucket, Index)
    requires WindowView(s, e, t) && RunsView(s, e, t) && UploadView(s, e)
    requires ReaderInv(cfg, s) && CoherentInv(cfg, s)
    ensures CoherentInv(cfg, t)
  {
  }

  // ---- backups ------------------------------------------------------------

  /** The backups are well-formed and none is newer than the one put last, which
      is there with its snapshot. */
  ghost predicate BackupInv(s: State) {
    match s.past.lastBackup
    case None => Backups(s.bucket) == {}
    case Some(last) =>
      && FourDigitYear(last.at) && last.at <= s.clock
      && BackupKey(last.at) in Backups(s.bucket)
      && s.bucket[BackupKey(last.at)] == BackupFile(last.snap)
      && forall k :: k in Backups(s.bucket) ==> OldBackup(k, last.at)
  }

  ghost predicate OldBackup(k: string, now: nat) {
    exists t: nat :: FourDigitYear(t) && k == BackupKey(t) && t <= now
  }

  lemma LastBackupIsGreatest(s: State)
    requires BackupInv(s) && s.past.lastBackup.Some?
    ensures Retention.IsGreatest(BackupKey(s.past.lastBackup.value.at), Backups(s.bucket))
    ensures NewestBackup(s.bucket, BackupKey(s.past.lastBackup.value.at))
  {
    var last := s.past.lastBackup.value;
    forall k | k in Backups(s.bucket) ensures AtMost(k, BackupKey(last.at)) {
      assert OldBackup(k, last.at);
      var t: nat :| FourDigitYear(t) && k == BackupKey(t) && t <= last.at;
      BackupKeyOrder(t, last.at);
    }
  }

  lemma BackupAdded(s: State, e: Event, t: State)
    requires BackupInv(s) && e.BackedUp? && s.clock <= e.now == t.clock && BackupsFramed(s, e, t.bucket)
    requires t.past.lastBackup == Some(Stored(e.now, s.phase.job.snap))
    ensures BackupInv(t)
  {
    BackupKeyPrefix(e.now);
    forall k | k in Backups(t.bucket) ensures OldBackup(k, e.now) {
      if k != BackupKey(e.now) {
        assert k in Backups(s.bucket);
        assert OldBackup(k, s.past.lastBackup.value.at);
      }
    }
  }

  lemma BackupShed(cfg: Config, s: State, e: Event, t: State)
    requires BackupInv(s) && e.BackupsShed? && BackupsFramed(s, e, t.bucket)
    requires cfg.backupKeep >= 1 && e.gone <= Retention.Surplus(s.bucket.Keys, cfg.backupKeep)
    requires t.past.lastBackup == s.past.lastBackup && t.clock >= s.clock
    ensures BackupInv(t)
  {
    if s.past.lastBackup.Some? {
      LastBackupIsGreatest(s);
      Retention.NewestBackupSurvives(s.bucket.Keys, cfg.backupKeep, BackupKey(s.past.lastBackup.value.at));
    }
    assert forall k :: k in Backups(t.bucket) ==> k in Backups(s.bucket);
  }

  lemma BackupKept(s: State, e: Event, t: State)
    requires BackupInv(s) && !e.BackedUp? && !e.BackupsShed? && BackupsFramed(s, e, t.bucket)
    requires t.past.lastBackup == s.past.lastBackup && t.clock >= s.clock
    ensures BackupInv(t)
  {
    assert forall k :: k in Backups(t.bucket) <==> k in Backups(s.bucket);
    assert Backups(t.bucket) == Backups(s.bucket);
  }

  /** The last backup and the clock change only when a backup is put. */
  ghost predicate BackupView(s: State, e: Event, t: State) {
    if e.BackedUp? then
      s.phase.At? && s.clock <= e.now == t.clock && t.past.lastBackup == Some(Stored(e.now, s.phase.job.snap))
    else t.past.lastBackup == s.past.lastBackup && t.clock >= s.clock
  }

  lemma BackupViewed(cfg: Config, s: State, e: Event)
    requires Enabled(cfg, s, e)
    ensures BackupView(s, e, Apply(cfg, s, e))
  {
  }

  lemma ShedWithin(cfg: Config, s: State, e: Event)
    requires Enabled(cfg, s, e) && e.BackupsShed? && cfg.backupKeep >= 0
    ensures e.gone <= Retention.Surplus(s.bucket.Keys, cfg.backupKeep)
  {
  }

  /** With keep at least 1 the backup put last survives every event. */
  lemma BackupStep(cfg: Config, s: State, e: Event)
    requires SafePrefix(cfg.prefix) && cfg.backupKeep >= 1 && Enabled(cfg, s, e)
    requires BackupInv(s)
    ensures BackupInv(Apply(cfg, s, e))
  {
    BackupFrame(cfg, s, e);
    BackupViewed(cfg, s, e);
    if e.BackupsShed? {
      ShedWithin(cfg, s, e);
    }
    BackupViewStep(cfg, s, e, Apply(cfg, s, e));
  }

  lemma BackupViewStep(cfg: Config, s: State, e: Event, t: State)
    requires BackupInv(s) && BackupView(s, e, t) && BackupsFramed(s, e, t.bucket) && cfg.backupKeep >= 1
    requires e.BackupsShed? ==> e.gone <= Retention.Surplus(s.bucket.Keys, cfg.backupKeep)
    ensures BackupInv(t)
  {
    if e.BackedUp? {
      BackupAdded(s, e, t);
    } else if e.BackupsShed? {
      BackupShed(cfg, s, e, t);
    } else {
      BackupKept(s, e, t);
    }
  }

  // ---- the shrink guard's baseline ----------------------------------------

  /** The chain of guarded exports ends in the present meta file, and each export in
      it passed the guard against the one before. */
  ghost predicate ChainInv(s: State) {
    && (Meta in s.files && s.files[Meta].MetaFile? ==>
          s.past.chain != [] && s.past.chain[|s.past.chain| - 1] == s.files[Meta].meta.counts)
    && (s.past.chain != [] ==> Meta in s.files && s.files[Meta].MetaFile?)
    && (forall i :: 0 < i < |s.past.chain| ==> !ShrinkGuard.Breaches(s.past.chain[i - 1], s.past.chain[i]))
    && (s.phase.At? && Rank(GuardExport) < Rank(s.phase.stage) <= Rank(WriteMeta) ==>
          !ShrinkGuard.Refuses(s.files, s.phase.job.x.meta.counts, s.phase.job.x.forced))
  }

  lemma GuardKept(cfg: Config, s: State, e: Event)
    requires InPlace(cfg, s.phase, e) && Between(PhaseAfter(cfg, s, e), GuardExport, WriteMeta)
    ensures
      var x := PhaseAfter(cfg, s, e).job.x;
      || (e.Accepted? && x == e.x)
      || (Between(s.phase, GuardExport, WriteMeta) && x == s.phase.job.x && e.Wrote? && s.phase.stage == WriteGz)
    ensures var files := FilesAfter(s.files, s.phase, e); files == s.files || files == s.files[Gz := BundleFile(s.phase.job.x.bundle)]
  {
  }

  lemma MetaKept(cfg: Config, s: State, e: Event)
    requires InPlace(cfg, s.phase, e)
    ensures
      var files, chain := FilesAfter(s.files, s.phase, e), PastAfter(s.past, s.phase, e).chain;
      if s.phase.At? && s.phase.stage == WriteMeta && e.Wrote? then
        && Meta in files && files[Meta] == MetaFile(s.phase.job.x.meta)
        && chain == (if s.phase.job.x.forced then [] else s.past.chain) + [s.phase.job.x.meta.counts]
      else
        || (chain == [] && (Meta in files ==> files[Meta].Torn?))
        || (chain == s.past.chain && (Meta in files <==> Meta in s.files) && (Meta in files ==> files[Meta] == s.files[Meta]))
  {
  }

  lemma ChainStep(cfg: Config, s: State, e: Event, t: State)
    requires ChainInv(s) && InPlace(cfg, s.phase, e)
    requires e.Accepted? ==> !ShrinkGuard.Refuses(s.files, e.x.meta.counts, e.x.forced)
    requires t.files == FilesAfter(s.files, s.phase, e)
    requires t.phase == PhaseAfter(cfg, s, e) && t.past == PastAfter(s.past, s.phase, e)
    ensures ChainInv(t)
  {
    MetaKept(cfg, s, e);
    if Between(t.phase, GuardExport, WriteMeta) {
      GuardKept(cfg, s, e);
    }
  }

  // ---- snapshot files -----------------------------------------------------

  function Holding(s: State): nat {
    if s.phase.At? && Rank(s.phase.stage) > Rank(TakeSnapshot) then 1 else 0
  }

  /** Every snapshot file is the present run's, or was left behind by a crash. */
  ghost predicate SnapshotInv(s: State) {
    s.temps == s.past.leaked + Holding(s)
  }

  lemma SnapshotStep(cfg: Config, s: State, e: Event, t: State)
    requires SnapshotInv(s) && InPlace(cfg, s.phase, e)
    requires t.temps == TempsAfter(s.temps, e)
    requires t.phase == PhaseAfter(cfg, s, e) && t.past == PastAfter(s.past, s.phase, e)
    ensures SnapshotInv(t)
  {
    if !e.Snapped? && !e.CleanedUp? && !e.Crash? {
      HoldingKept(cfg, s, e);
    }
  }

  lemma HoldingKept(cfg: Config, s: State, e: Event)
    requires InPlace(cfg, s.phase, e) && !e.Snapped? && !e.CleanedUp? && !e.Crash?
    ensures
      var phase := PhaseAfter(cfg, s, e);
      (phase.At? && Rank(phase.stage) > Rank(TakeSnapshot)) <==> (s.phase.At? && Rank(s.phase.stage) > Rank(TakeSnapshot))
    ensures PastAfter(s.past, s.phase, e).leaked == s.past.leaked
  {
    LeakedKept(s, e);
    if s.phase.At? && Rank(s.phase.stage) > Rank(TakeSnapshot) {
      HoldingOn(cfg, s, e);
    } else {
      NotYetHolding(cfg, s, e);
    }
  }

  lemma HoldingOn(cfg: Config, s: State, e: Event)
    requires InPlace(cfg, s.phase, e) && !e.CleanedUp? && !e.Crash?
    requires s.phase.At? && Rank(s.phase.stage) > Rank(TakeSnapshot)
    ensures PhaseAfter(cfg, s, e).At? && Rank(PhaseAfter(cfg, s, e).stage) > Rank(TakeSnapshot)
  {
  }

  lemma NotYetHolding(cfg: Config, s: State, e: Event)
    requires InPlace(cfg, s.phase, e) && !e.Snapped?
    requires s.phase.At? ==> Rank(s.phase.stage) <= Rank(TakeSnapshot)
    ensures PhaseAfter(cfg, s, e).At? ==> Rank(PhaseAfter(cfg, s, e).stage) <= Rank(TakeSnapshot)
  {
  }

  lemma LeakedKept(s: State, e: Event)
    requires !e.Crash?
    ensures PastAfter(s.past, s.phase, e).leaked == s.past.leaked
  {
  }

  // ---- what the history records -------------------------------------------

  /** What an event adds to the history: the run that wrote the live bundle and index,
      whether a bundle put has no index put yet, the version put, the counts of a meta
      file after those it was compared with, and the last backup. */
  lemma HistoryMeans(cfg: Config, s: State, e: Event)
    requires Enabled(cfg, s, e)
    ensures
      var h, t := s.past, Apply(cfg, s, e).past;
      && t.run == (if e.Begin? then h.run + 1 else h.run)
      && t.bundleRun == (if PutsLive(s, e, Gz) then h.run else h.bundleRun)
      && t.indexRun == (if PutsLive(s, e, Index) then h.run else h.indexRun)
      && t.dirty == (PutsLive(s, e, Gz) || (h.dirty && !PutsLive(s, e, Index)))
      && t.published == h.published + (if PutsLive(s, e, Index) then [s.phase.job.index.version] else [])
      && t.lastBackup == (if e.BackedUp? then Some(Stored(e.now, s.phase.job.snap)) else h.lastBackup)
  {
    if e.Put? {
      HistoryOfPut(cfg, s, e);
    }
  }

  lemma HistoryOfPut(cfg: Config, s: State, e: Event)
    requires InPlace(cfg, s.phase, e) && e.Put?
    ensures
      var h, t := s.past, PastAfter(s.past, s.phase, e);
      if PutsLive(s, e, Gz) then t == h.(bundleRun := h.run, dirty := true)
      else if PutsLive(s, e, Index) then
        t == h.(indexRun := h.run, dirty := false, published := h.published + [s.phase.job.index.version])
      else t == h
  {
  }

  /** The chain of compared counts grows with each meta file written, begins anew with a
      forced one, and is lost when the file is torn or wiped. */
  lemma ChainMeans(cfg: Config, s: State, e: Event)
    requires InPlace(cfg, s.phase, e)
    ensures
      var h, t := s.past.chain, PastAfter(s.past, s.phase, e).chain;
      if s.phase.At? && s.phase.stage == WriteMeta && e.Wrote? then
        t == (if s.phase.job.x.forced then [] else h) + [s.phase.job.x.meta.counts]
      else if e.WipeOut? || (s.phase.At? && s.phase.stage == WriteMeta && e.Tore?) then t == []
      else t == h
  {
  }

  // ---- all of them --------------------------------------------------------

  /** The invariants that need no assumption about the live fetch. */
  ghost predicate Inv(cfg: Config, s: State) {
    && FilesInv(s.files, s.phase) && DirInv(s.files, s.phase) && ArchiveInv(s.phase)
    && ReaderInv(cfg, s) && CoherentInv(cfg, s) && ChainInv(s) && SnapshotInv(s)
  }

  lemma FreshInv(cfg: Config, s: State)
    requires Fresh(s)
    ensures Inv(cfg, s) && VersionInv(cfg, s) && BackupInv(s)
  {
    assert Backups(s.bucket) == {};
  }

  lemma ReaderSteps(cfg: Config, s: State, e: Event)
    requires SafePrefix(cfg.prefix) && Enabled(cfg, s, e)
    requires FilesInv(s.files, s.phase) && DirInv(s.files, s.phase) && ReaderInv(cfg, s) && CoherentInv(cfg, s)
    ensures ReaderInv(cfg, Apply(cfg, s, e)) && CoherentInv(cfg, Apply(cfg, s, e))
    ensures s.past.bundleRun <= Apply(cfg, s, e).past.bundleRun
    ensures s.past.indexRun <= Apply(cfg, s, e).past.indexRun
  {
    var t := Apply(cfg, s, e);
    LiveFrame(cfg, s, e, Gz);
    LiveFrame(cfg, s, e, Index);
    WindowKept(cfg, s, e, t);
    RunsKept(cfg, s, e, t);
    Uploads(s, e);
    ReaderStep(cfg, s, e, t);
    CoherentStep(cfg, s, e, t);
  }

  lemma InvStep(cfg: Config, s: State, e: Event)
    requires SafePrefix(cfg.prefix) && Enabled(cfg, s, e) && Inv(cfg, s)
    ensures Inv(cfg, Apply(cfg, s, e))
  {
    var t := Apply(cfg, s, e);
    GzStep(cfg, s, e);
    MetaStep(cfg, s, e);
    AdvanceStep(cfg, s, e);
    IndexStep(cfg, s, e);
    DirStep(cfg, s, e);
    ArchiveStep(cfg, s, e);
    ReaderSteps(cfg, s, e);
    ChainStep(cfg, s, e, t);
    SnapshotStep(cfg, s, e, t);
  }

  lemma VersionSteps(cfg: Config, s: State, e: Event)
    requires SafePrefix(cfg.prefix) && Enabled(cfg, s, e)
    requires FilesInv(s.files, s.phase) && VersionInv(cfg, s) && FetchHolds(cfg, s, e)
    ensures VersionInv(cfg, Apply(cfg, s, e))
  {
    var t := Apply(cfg, s, e);
    LiveFrame(cfg, s, e, Index);
    IndexKept(cfg, s, e, t);
    LocalVersionKept(cfg, s, e, t);
    PublishedKept(cfg, s, e, t);
    VersionStep(cfg, s, e, t);
  }
}
