/** What a run leaves in OUT_DIR and in the bucket, said of the stores before and
    after it. */
module Outcomes {
  import opened Text
  import opened Store
  import opened Names
  import opened Buckets
  import opened Calendar
  import opened Protocol
  import opened Safety
  import Releases
  import Retention
  import ShrinkGuard
  import Validate
  import Witnesses

  // ---- OUT_DIR ------------------------------------------------------------

  /** Bundle, meta and index are the same in both sets of files. */
  predicate SameArtifacts(f: Files, g: Files) {
    forall a: Artifact :: a != Artifact.Releases && a != Delta ==> (a in f <==> a in g) && (a in f ==> f[a] == g[a])
  }

  function NextVersion(cfg: Config, files: Files, bucket: Objects, x: Export, fetched: bool, url: string): IndexDoc {
    Advance(PreviousVersion(cfg.prefix, files, bucket, fetched), x.meta.fullSha, url)
  }

  /** The files after a complete export. */
  function Exported(files: Files, x: Export, index: IndexDoc): Files {
    files[Gz := BundleFile(x.bundle)][Meta := MetaFile(x.meta)][Index := IndexFile(index)]
  }

  predicate PassesGuard(files: Files, x: Option<Export>) {
    x.Some? && !ShrinkGuard.Refuses(files, x.value.meta.counts, x.value.forced)
  }

  /** The release history is the one before with the entry of this export written. */
  predicate HistoryWritten(before: Files, after: Files, meta: MetaDoc) {
    && Artifact.Releases in after && after[Artifact.Releases].ReleasesFile?
    && var entries :=
         if Artifact.Releases in before && before[Artifact.Releases].ReleasesFile?
         then before[Artifact.Releases].releases else [];
    Releases.IsUpdated(
      entries, Release("full", Trim(meta.exportedAt), Trim(meta.fullExportedAt), meta.fullSha),
      after[Artifact.Releases].releases)
  }

  lemma HistoryIsWritten(before: Files, meta: MetaDoc)
    ensures
      var entry := Releases.Trimmed(Release("full", meta.exportedAt, meta.fullExportedAt, meta.fullSha));
      HistoryWritten(
        before,
        before[Artifact.Releases := ReleasesFile(Releases.Upsert(Releases.Entries(before), entry))], meta)
  {
    var entry := Releases.Trimmed(Release("full", meta.exportedAt, meta.fullExportedAt, meta.fullSha));
    var full := "full";
    assert Trim(full) == full;
    Releases.UpsertUpdates(Releases.Entries(before), entry);
  }

  /** The history depends on the history file only. */
  lemma SameHistory(before: Files, start: Files, after: Files, end: Files, meta: MetaDoc)
    requires HistoryWritten(before, after, meta)
    requires Artifact.Releases in before <==> Artifact.Releases in start
    requires Artifact.Releases in before ==> before[Artifact.Releases] == start[Artifact.Releases]
    requires Artifact.Releases in end && end[Artifact.Releases] == after[Artifact.Releases]
    ensures HistoryWritten(start, end, meta)
  {
  }

  predicate ExportIsValid(
    cfg: Config, files: Files, bucket: Objects, x: Option<Export>, fetched: bool, url: string)
  {
    && PassesGuard(files, x)
    && Validate.ValidDir(Exported(files, x.value, NextVersion(cfg, files, bucket, x.value, fetched, url)))
  }

  /** OUT_DIR holds exactly the export: its bundle, its meta, and an index of this version
      with this address and the meta's checksum. */
  predicate IsExport(x: Export, version: nat, url: string, files: Files) {
    && Gz in files && files[Gz] == BundleFile(x.bundle)
    && Meta in files && files[Meta] == MetaFile(x.meta)
    && Index in files && files[Index] == IndexFile(IndexDoc(version, version, url, x.meta.fullSha))
  }

  /** The export has passed the guard, its files are there and valid, and its version is
      the next number. */
  predicate IsPublished(
    cfg: Config, before: Files, bucket: Objects, x: Option<Export>, fetched: bool, url: string,
    version: nat, after: Files)
  {
    && ExportIsValid(cfg, before, bucket, x, fetched, url)
    && IsNextNumber(before, Live(cfg, bucket, Index), fetched, version)
    && IsExport(x.value, version, url, after)
  }

  /** Validation looks at bundle, meta and index only. */
  lemma SameValid(f: Files, g: Files)
    requires SameArtifacts(f, g)
    ensures Validate.ValidDir(f) <==> Validate.ValidDir(g)
  {
    assert (Gz in f <==> Gz in g) && (Meta in f <==> Meta in g) && (Index in f <==> Index in g);
  }

  /** The export has passed the guard and is in OUT_DIR with the next number; on a calm
      host the release history has its entry and no delta is left. */
  predicate IsExported(
    cfg: Config, calm: bool, before: Files, bucket: Objects, x: Option<Export>, fetched: bool, url: string,
    version: nat, after: Files)
  {
    && PassesGuard(before, x)
    && IsNextNumber(before, Live(cfg, bucket, Index), fetched, version)
    && IsExport(x.value, version, url, after)
    && (calm ==> HistoryWritten(before, after, x.value.meta) && Delta !in after)
  }

  lemma ExportAssembled(
    cfg: Config, calm: bool, before: Files, middle: Files, bucket: Objects, x: Export, fetched: bool, url: string,
    index: IndexDoc, after: Files)
    requires PassesGuard(before, Some(x))
    requires SameArtifacts(middle, before[Gz := BundleFile(x.bundle)][Meta := MetaFile(x.meta)])
    requires calm ==> HistoryWritten(before, middle, x.meta) && Delta !in middle
    requires index == Advance(PreviousVersion(cfg.prefix, middle, bucket, fetched), x.meta.fullSha, url)
    requires after == middle[Index := IndexFile(index)]
    ensures IsExported(cfg, calm, before, bucket, Some(x), fetched, url, index.version, after)
  {
    assert Index in before <==> Index in middle;
    Witnesses.SamePrevious(cfg, before, middle, bucket, fetched);
    NextNumber(cfg, before, bucket, fetched);
    assert Gz in middle && Meta in middle;
    if calm {
      SameHistory(before, before, middle, after, x.meta);
    }
  }

  /** A complete export is the one that the previous version leads to. */
  lemma ExportIsNext(
    cfg: Config, before: Files, bucket: Objects, x: Export, fetched: bool, url: string, version: nat, after: Files)
    requires IsExport(x, version, url, after)
    requires IsNextNumber(before, Live(cfg, bucket, Index), fetched, version)
    ensures SameArtifacts(after, Exported(before, x, NextVersion(cfg, before, bucket, x, fetched, url)))
  {
    NextNumber(cfg, before, bucket, fetched);
  }

  /** Of a complete export the files at hand pass validation exactly when the export is
      valid. */
  lemma ValidIsPublished(
    cfg: Config, calm: bool, before: Files, bucket: Objects, x: Option<Export>, fetched: bool, url: string,
    version: nat, after: Files)
    requires IsExported(cfg, calm, before, bucket, x, fetched, url, version, after)
    ensures Validate.ValidDir(after) <==> ExportIsValid(cfg, before, bucket, x, fetched, url)
    ensures Validate.ValidDir(after) ==> IsPublished(cfg, before, bucket, x, fetched, url, version, after)
  {
    ExportIsNext(cfg, before, bucket, x.value, fetched, url, version, after);
    SameValid(after, Exported(before, x.value, NextVersion(cfg, before, bucket, x.value, fetched, url)));
  }

  // ---- the live objects ---------------------------------------------------

  /** The bucket after an artifact has been put, or passed over when it is absent. */
  function WithFile(objects: Objects, files: Files, key: string, a: Artifact): Objects {
    if a in files then objects[key := files[a]] else objects
  }

  /** The live bundle, meta and index are the local ones. */
  predicate LiveIsLocal(cfg: Config, objects: Objects, files: Files) {
    forall a: Artifact :: a != Artifact.Releases && a != Delta && a in files ==>
      Live(cfg, objects, a) == Some(files[a])
  }

  /** The live objects are the same in both. */
  predicate SameLive(cfg: Config, before: Objects, after: Objects) {
    forall a: Artifact :: Live(cfg, after, a) == Live(cfg, before, a)
  }

  lemma StillLocal(cfg: Config, before: Objects, after: Objects, files: Files)
    requires LiveIsLocal(cfg, before, files) && SameLive(cfg, before, after)
    ensures LiveIsLocal(cfg, after, files)
  {
  }

  /** The index has been put, and an old live delta has been removed; it may be left
      when requests can fail. */
  predicate IndexStored(cfg: Config, before: Objects, after: Objects, files: Files, calm: bool) {
    && Index in files
    && (|| after == (before - {LiveKey(cfg.prefix, Delta)})[LiveKey(cfg.prefix, Index) := files[Index]]
        || (!calm && after == before[LiveKey(cfg.prefix, Index) := files[Index]]))
  }

  lemma IndexIsStored(cfg: Config, before: Objects, dropped: Objects, after: Objects, files: Files, calm: bool)
    requires dropped == before - {LiveKey(cfg.prefix, Delta)} || (!calm && dropped == before)
    requires Index in files && after == dropped[LiveKey(cfg.prefix, Index) := files[Index]]
    ensures IndexStored(cfg, before, after, files, calm)
  {
  }

  lemma ThreeLive(cfg: Config, start: Objects, first: Objects, last: Objects, files: Files, calm: bool)
    requires first == WithFile(WithFile(start, files, LiveKey(cfg.prefix, Gz), Gz), files, LiveKey(cfg.prefix, Meta), Meta)
    requires IndexStored(cfg, first, last, files, calm)
    ensures LiveIsLocal(cfg, last, files) && TouchesOnlyLive(cfg, start, last)
    ensures calm ==> Live(cfg, last, Delta).None?
  {
    LiveKeysDistinct(cfg.prefix, Gz, Meta);
    LiveKeysDistinct(cfg.prefix, Gz, Index);
    LiveKeysDistinct(cfg.prefix, Meta, Index);
    LiveKeysDistinct(cfg.prefix, Delta, Gz);
    LiveKeysDistinct(cfg.prefix, Delta, Meta);
    LiveKeysDistinct(cfg.prefix, Delta, Index);
  }

  // ---- the folders --------------------------------------------------------

  predicate SameAt(a: Objects, b: Objects, k: string) {
    (k in a <==> k in b) && (k in a ==> a[k] == b[k])
  }

  ghost predicate SameUnder(a: Objects, b: Objects, folder: string) {
    forall k :: HasPrefix(k, folder) ==> SameAt(a, b, k)
  }

  ghost predicate TouchesOnlyLive(cfg: Config, before: Objects, after: Objects) {
    forall k :: (forall a: Artifact :: k != LiveKey(cfg.prefix, a)) ==> SameAt(before, after, k)
  }

  /** The archive of this version and instant holds the index and bundle at hand. */
  ghost predicate IsArchived(objects: Objects, files: Files, version: nat, now: nat)
    requires FourDigitYear(now)
  {
    forall a: Artifact :: (a == Index || a == Gz) && a in files ==>
      ArchiveKey(version, now, a) in objects && objects[ArchiveKey(version, now, a)] == files[a]
  }

  /** The bucket with the archive copies added. */
  function Copied(objects: Objects, files: Files, version: nat, now: nat): Objects
    requires FourDigitYear(now)
  {
    WithFile(
      WithFile(objects, files, ArchiveKey(version, now, Index), Index), files, ArchiveKey(version, now, Gz), Gz)
  }

  lemma ArchiveCopies(cfg: Config, before: Objects, files: Files, version: nat, now: nat)
    requires FourDigitYear(now)
    ensures IsArchived(Copied(before, files, version, now), files, version, now)
    ensures SafePrefix(cfg.prefix) ==> SameLive(cfg, before, Copied(before, files, version, now))
  {
    CopyKeysDistinct(version, now);
    if SafePrefix(cfg.prefix) {
      forall a: Artifact ensures LiveKey(cfg.prefix, a) != ArchiveKey(version, now, Index)
                      && LiveKey(cfg.prefix, a) != ArchiveKey(version, now, Gz) {
        LiveKeysSafe(cfg.prefix, a);
        ArchiveKeyPrefix(version, now, Index);
        ArchiveKeyPrefix(version, now, Gz);
      }
    }
  }

  lemma CopyKeysDistinct(version: nat, now: nat)
    requires FourDigitYear(now)
    ensures ArchiveKey(version, now, Index) != ArchiveKey(version, now, Gz)
  {
    assert |ArchiveKey(version, now, Index)| < |ArchiveKey(version, now, Gz)|;
  }

  /** An upload reaches no backup, and of the archives only its own copies. */
  lemma UploadFolders(cfg: Config, start: Objects, last: Objects, files: Files, version: nat, now: nat)
    requires SafePrefix(cfg.prefix) && FourDigitYear(now) && TouchesOnlyLive(cfg, start, last)
    ensures SameUnder(start, Copied(last, files, version, now), BACKUPS)
    ensures SameUnder(Copied(start, files, version, now), Copied(last, files, version, now), ARCHIVE)
  {
    ArchiveKeyPrefix(version, now, Index);
    ArchiveKeyPrefix(version, now, Gz);
    forall k | HasPrefix(k, BACKUPS) || HasPrefix(k, ARCHIVE) ensures SameAt(start, last, k) {
      forall a: Artifact ensures k != LiveKey(cfg.prefix, a) {
        LiveKeysSafe(cfg.prefix, a);
      }
    }
  }

  // ---- what is kept -------------------------------------------------------

  /** left are the keep greatest of all, or all if there are fewer. */
  ghost predicate LastOf(all: set<string>, left: set<string>, keep: int) {
    && left <= all && |left| == (if keep < |all| then keep else |all|)
    && forall k, g :: k in left && g in all - left ==> Less(g, k)
  }

  /** With a backup of snap at now the backups left are the keep newest, as they were. */
  ghost predicate BackupsKept(keep: int, before: Objects, after: Objects, now: nat, snap: Snapshot)
    requires FourDigitYear(now)
  {
    && LastOf(Backups(before) + {BackupKey(now)}, Backups(after), keep)
    && forall k :: k in Backups(after) ==> after[k] == if k == BackupKey(now) then BackupFile(snap) else before[k]
  }

  lemma PrunedBackupsKept(keep: nat, before: Objects, now: nat, snap: Snapshot)
    requires FourDigitYear(now)
    ensures
      var put := before[BackupKey(now) := BackupFile(snap)];
      && |Under(put.Keys, BACKUPS)| <= |Backups(before)| + 1
      && BackupsKept(keep, before, put - Retention.Surplus(put.Keys, keep), now, snap)
  {
    var put := before[BackupKey(now) := BackupFile(snap)];
    PutBackups(before, now, snap);
    KeptAreLast(put.Keys, keep);
    KeptContents(put, Retention.Surplus(put.Keys, keep));
  }

  lemma PutBackups(before: Objects, now: nat, snap: Snapshot)
    requires FourDigitYear(now)
    ensures
      var put := before[BackupKey(now) := BackupFile(snap)];
      Under(put.Keys, BACKUPS) == Backups(before) + {BackupKey(now)}
      && |Under(put.Keys, BACKUPS)| <= |Backups(before)| + 1
  {
    BackupKeyPrefix(now);
    var put := before[BackupKey(now) := BackupFile(snap)];
    assert Under(put.Keys, BACKUPS) == Backups(before) + {BackupKey(now)};
  }

  lemma KeptContents(put: Objects, gone: set<string>)
    ensures (put - gone).Keys == put.Keys - gone
    ensures forall k :: k in Backups(put - gone) ==> k in put && (put - gone)[k] == put[k]
  {
  }

  lemma KeptAreLast(keys: set<string>, keep: nat)
    ensures LastOf(Under(keys, BACKUPS), Under(keys - Retention.Surplus(keys, keep), BACKUPS), keep)
  {
    var all, left := Under(keys, BACKUPS), Under(keys - Retention.Surplus(keys, keep), BACKUPS);
    Retention.PruningKeepsNewestBackups(keys, keep);
    forall k, g | k in left && g in all - left ensures Less(g, k) {
      assert g in Retention.Surplus(keys, keep);
    }
  }

  lemma BackupsKeptSame(
    keep: int, before: Objects, start: Objects, after: Objects, end: Objects, now: nat, snap: Snapshot)
    requires FourDigitYear(now) && BackupsKept(keep, before, after, now, snap)
    requires SameUnder(before, start, BACKUPS) && SameUnder(after, end, BACKUPS)
    ensures BackupsKept(keep, start, end, now, snap)
  {
    assert Backups(start) == Backups(before) && Backups(end) == Backups(after);
  }

  lemma SameBackups(before: Objects, start: Objects)
    requires SameUnder(before, start, BACKUPS)
    ensures Backups(before) == Backups(start)
  {
  }

  /** A new backup that is newer than all before is the newest kept. */
  lemma NewestIsKept(keep: int, before: Objects, after: Objects, now: nat, snap: Snapshot)
    requires FourDigitYear(now) && keep >= 1 && BackupsKept(keep, before, after, now, snap)
    requires forall k :: k in Backups(before) ==> Less(k, BackupKey(now))
    ensures Retention.IsGreatest(BackupKey(now), Backups(after)) && after[BackupKey(now)] == BackupFile(snap)
  {
    var key, left := BackupKey(now), Backups(after);
    if key !in left {
      var k := SomeMember(left, Backups(before) + {key}, keep, key);
      LessAsymmetric(key, k);
    }
  }

  lemma SomeMember(left: set<string>, all: set<string>, keep: int, key: string) returns (k: string)
    requires LastOf(all, left, keep) && keep >= 1 && key in all
    ensures k in left
  {
    assert all != {};
    assert |all| >= 1;
    assert left != {};
    k :| k in left;
  }

  /** The archives left are the keep last by name, each with all its objects. */
  ghost predicate ArchivesLeft(keep: int, before: Objects, after: Objects) {
    && LastOf(Retention.Groups(before.Keys), Retention.Groups(after.Keys), keep)
    && forall k :: GroupOf(k).Some? && GroupOf(k).value in Retention.Groups(after.Keys) ==> SameAt(before, after, k)
  }

  lemma PrunedArchivesLeft(
    keep: int, before: Objects, r: Retention.PruneResult, gone: set<string>)
    requires Retention.PrunedArchives(before.Keys, keep, r, gone, {}) && r.Pruned?
    ensures keep >= 0 && ArchivesLeft(keep, before, before - gone)
  {
    var n, keys := r.n, before.Keys;
    var sorted := Sorted(Retention.Groups(keys));
    if |sorted| <= keep {
      NothingPruned(keep, before, gone);
    } else {
      LastGroups(keep, before, n);
      assert gone == Retention.FirstGroups(keys, n);
    }
  }

  lemma NothingPruned(keep: int, before: Objects, gone: set<string>)
    requires gone == {} && |Sorted(Retention.Groups(before.Keys))| <= keep
    ensures ArchivesLeft(keep, before, before - gone)
  {
    assert before - gone == before;
    AscendingIsDistinct(Sorted(Retention.Groups(before.Keys)));
  }

  lemma LastGroups(keep: int, before: Objects, n: nat)
    requires n <= |Sorted(Retention.Groups(before.Keys))| && n == |Sorted(Retention.Groups(before.Keys))| - keep
    ensures ArchivesLeft(keep, before, before - Retention.FirstGroups(before.Keys, n))
  {
    var keys := before.Keys;
    var gone := Retention.FirstGroups(keys, n);
    assert (before - gone).Keys == keys - gone;
    Retention.PruningKeepsTheLast(keys, n);
    GroupsLast(keys, keep, n);
    forall k | GroupOf(k).Some? && GroupOf(k).value in Retention.Groups(keys - gone)
      ensures SameAt(before, before - gone, k)
    {
      KeptGroupWhole(keys, n, k);
    }
  }

  lemma GroupsLast(keys: set<string>, keep: int, n: nat)
    requires n <= |Sorted(Retention.Groups(keys))| && n == |Sorted(Retention.Groups(keys))| - keep
    ensures LastOf(Retention.Groups(keys), Elements(Sorted(Retention.Groups(keys))[n..]), keep)
  {
    var groups, sorted := Retention.Groups(keys), Sorted(Retention.Groups(keys));
    AscendingIsDistinct(sorted);
    Retention.SuffixOfSorted(groups, n);
    forall k, g | k in Elements(sorted[n..]) && g in groups - Elements(sorted[n..]) ensures Less(g, k) {
      assert g in Elements(sorted[..n]);
    }
  }

  lemma KeptGroupWhole(keys: set<string>, n: nat, k: string)
    requires n <= |Sorted(Retention.Groups(keys))|
    requires GroupOf(k).Some? && GroupOf(k).value in Elements(Sorted(Retention.Groups(keys))[n..])
    ensures k !in Retention.FirstGroups(keys, n)
  {
    Retention.SuffixOfSorted(Retention.Groups(keys), n);
  }

  /** The groups depend on what lies under the archives' folder only. */
  lemma SameGroups(a: Objects, b: Objects)
    requires SameUnder(a, b, ARCHIVE)
    ensures Retention.Groups(a.Keys) == Retention.Groups(b.Keys)
  {
    forall g | g in Retention.Groups(a.Keys) ensures g in Retention.Groups(b.Keys) {
      var k :| k in a.Keys && GroupOf(k) == Some(g);
      assert k in b.Keys;
    }
    forall g | g in Retention.Groups(b.Keys) ensures g in Retention.Groups(a.Keys) {
      var k :| k in b.Keys && GroupOf(k) == Some(g);
      assert k in a.Keys;
    }
  }

  lemma ArchivesLeftSame(keep: int, before: Objects, start: Objects, after: Objects)
    requires ArchivesLeft(keep, before, after) && SameUnder(before, start, ARCHIVE)
    ensures ArchivesLeft(keep, start, after)
  {
    SameGroups(before, start);
  }

  /** The copies of an upload add one group, named after its snapshot. */
  lemma CopiedGroups(objects: Objects, files: Files, version: nat, now: nat)
    requires FourDigitYear(now) && Index in files
    ensures Retention.Groups(Copied(objects, files, version, now).Keys) ==
            Retention.Groups(objects.Keys) + {ArchiveName(version, now)}
  {
    ArchiveKeyGroup(version, now, Index);
    ArchiveKeyGroup(version, now, Gz);
    var copied := Copied(objects, files, version, now);
    var added := copied.Keys - objects.Keys;
    assert added <= {ArchiveKey(version, now, Index), ArchiveKey(version, now, Gz)};
    forall g | g in Retention.Groups(objects.Keys) + {ArchiveName(version, now)}
      ensures g in Retention.Groups(copied.Keys)
    {
      if g == ArchiveName(version, now) {
        assert ArchiveKey(version, now, Index) in copied.Keys;
      } else {
        var k :| k in objects.Keys && GroupOf(k) == Some(g);
        assert k in copied.Keys;
      }
    }
    forall g | g in Retention.Groups(copied.Keys)
      ensures g in Retention.Groups(objects.Keys) + {ArchiveName(version, now)}
    {
      var k :| k in copied.Keys && GroupOf(k) == Some(g);
      assert k in objects.Keys || k in added;
    }
  }

  // ---- a finished run -----------------------------------------------------

  /** The database file exists and is not empty. */
  predicate HasContent(db: Option<Snapshot>) {
    db.Some? && db.value != []
  }

  /** Neither pruning step that is switched on has a negative keep. */
  predicate Prunable(cfg: Config) {
    (cfg.dbBackup ==> cfg.backupKeep >= 0) && (cfg.cleanup ==> cfg.keep >= 0)
  }

  /** What it takes to publish once there is a database: an export that the guard
      lets pass and whose files pass validation, R2 configured, and no negative keep. */
  predicate CanPublish(cfg: Config, files: Files, bucket: Objects, x: Option<Export>, url: string) {
    ExportIsValid(cfg, files, bucket, x, true, url) && cfg.r2 && Prunable(cfg)
  }

  /** The database a run works from: the local one, or the one it fetched. */
  predicate IsFound(cfg: Config, calm: bool, local: Option<Snapshot>, found: Option<Snapshot>) {
    && (!cfg.fetchProd ==> found == local)
    && (cfg.fetchProd && !cfg.prodSource ==> found.None?)
    && (cfg.fetchProd && cfg.prodSource && calm ==> found.Some?)
  }

  /** What a run reports of itself, for stating properties: whether it could fetch the
      live index, the database it found, its snapshot, and the instants that name its
      archive and its backup. */
  datatype Report = Report(fetched: bool, found: Option<Snapshot>, snap: Snapshot, archivedAt: nat, backupAt: nat)

  const NO_REPORT := Report(true, None, [], 0, 0)

  /** The backups and archives that a run leaves when no request fails. */
  ghost predicate IsRetained(cfg: Config, before: Objects, after: Objects, files: Files, version: nat, rep: Report)
    requires FourDigitYear(rep.archivedAt) && FourDigitYear(rep.backupAt)
  {
    var copied := Copied(before, files, version, rep.archivedAt);
    && (if cfg.dbBackup then
          |Backups(before)| + 1 - cfg.backupKeep <= MAX_KEYS ==>
            BackupsKept(cfg.backupKeep, before, after, rep.backupAt, rep.snap)
        else SameUnder(before, after, BACKUPS))
    && (if cfg.cleanup then ArchivesLeft(cfg.keep, copied, after) else SameUnder(copied, after, ARCHIVE))
  }

  /** A finished run: the export is published under the next number, its files are live;
      and when nothing fails by itself (quiet) the release history has its entry, no
      delta is left, and exactly the configured backups and archives are kept. */
  ghost predicate IsDone(
    cfg: Config, quiet: bool, before: Files, remote: Objects, x: Option<Export>, url: string,
    version: nat, rep: Report, after: Files, live: Objects)
  {
    && FourDigitYear(rep.archivedAt) && FourDigitYear(rep.backupAt)
    && IsPublished(cfg, before, remote, x, rep.fetched, url, version, after)
    && (quiet ==> HistoryWritten(before, after, x.value.meta) && Delta !in after)
    && (SafePrefix(cfg.prefix) ==>
          && LiveIsLocal(cfg, live, after)
          && (quiet ==> Live(cfg, live, Delta).None? && IsRetained(cfg, remote, live, after, version, rep)))
  }
}
