/** The machine the publisher runs on, and the requests it makes of it.

    Every method below performs one step on the stores and records the event it
    amounts to; the record is always a legal trace whose replay is the present
    state.  A step may fail, and the process may die at any of them. */
module World {
  import opened Store
  import opened Names
  import opened Buckets
  import opened Protocol
  import opened Calendar
  import Retention
  import Text
  import Releases
  import Safety
  import ShrinkGuard
  import Validate
  import Witnesses

  /** How a step ends: done, returned with an error, or the process is gone. */
  datatype Step = Ok | Err | Dead

  lemma TornPhase(cfg: Config, s: State, bytes: Bytes)
    requires s.phase.At? && IsWrite(s.phase.stage)
    ensures Enabled(cfg, s, Tore(bytes))
    ensures PhaseAfter(cfg, s, Tore(bytes)) == At(Unwind, s.phase.job.(ok := false))
    ensures PastAfter(s.past, s.phase, Tore(bytes)).published == s.past.published
    ensures PastAfter(s.past, s.phase, Tore(bytes)).warned == s.past.warned
  {
  }

  lemma FailPhase(cfg: Config, s: State)
    requires s.phase.At? && Fatal(cfg, s.phase.stage)
    ensures Enabled(cfg, s, Fail)
    ensures PhaseAfter(cfg, s, Fail) ==
            if Rank(s.phase.stage) <= Rank(TakeSnapshot) then Idle else At(Unwind, s.phase.job.(ok := false))
    ensures PastAfter(s.past, s.phase, Fail) == s.past
  {
  }

  lemma CrashPhase(cfg: Config, s: State)
    requires s.phase.At?
    ensures Enabled(cfg, s, Crash) && PhaseAfter(cfg, s, Crash) == Idle
    ensures PastAfter(s.past, s.phase, Crash).published == s.past.published
    ensures PastAfter(s.past, s.phase, Crash).warned == s.past.warned
  {
  }

  lemma WrotePhase(cfg: Config, s: State)
    requires s.phase.At? && IsWrite(s.phase.stage)
    ensures Enabled(cfg, s, Wrote)
    ensures PhaseAfter(cfg, s, Wrote) == At(Following(cfg, s.phase.stage), s.phase.job)
    ensures PastAfter(s.past, s.phase, Wrote).published == s.past.published
    ensures PastAfter(s.past, s.phase, Wrote).warned == s.past.warned
  {
  }

  function PublishedBy(stage: Stage, job: Job): seq<nat> {
    if stage == PutIndex then [job.index.version] else []
  }

  lemma PutPhase(cfg: Config, s: State, lost: bool)
    requires s.phase.At? && IsPut(s.phase.stage)
    requires PutArtifact(s.phase.stage) in s.files && KeyDefined(s.phase.stage, s.phase.job)
    ensures Enabled(cfg, s, Put(lost))
    ensures PhaseAfter(cfg, s, Put(lost)) ==
            if lost then At(Unwind, s.phase.job.(ok := false)) else GoOn(Following(cfg, s.phase.stage), s.phase.job)
    ensures PastAfter(s.past, s.phase, Put(lost)).published ==
            s.past.published + PublishedBy(s.phase.stage, s.phase.job)
    ensures PastAfter(s.past, s.phase, Put(lost)).warned == s.past.warned
  {
  }

  lemma EarlyPhases(cfg: Config, s: State, e: Event)
    requires e.Begin? || e.Fetched? || e.Checked? || e.Synced? || e.Snapped?
    requires Enabled(cfg, s, e)
    ensures PastAfter(s.past, s.phase, e).published == s.past.published
    ensures PastAfter(s.past, s.phase, e).warned == s.past.warned + if IsWarning(e) then 1 else 0
    ensures
      var p := PhaseAfter(cfg, s, e);
      match e
      case Begin => p == At(if cfg.fetchProd then FetchDb else CheckDb, NEW_JOB)
      case Fetched(_) => p == At(CheckDb, s.phase.job)
      case Checked => p == At(if cfg.sync then SyncDb else TakeSnapshot, s.phase.job)
      case Synced(_, ok) => p == At(TakeSnapshot, if ok then s.phase.job else Warned(s.phase.job))
      case Snapped => p == At(GuardExport, s.phase.job.(snap := s.db.value))
      case _ => true
  {
  }

  lemma ExportPhases(cfg: Config, s: State, e: Event)
    requires e.Accepted? || e.Refused? || e.WroteReleases? || e.RemovedDelta? || e.ReadIndex? || e.Validated? || e.Connected?
    requires Enabled(cfg, s, e)
    ensures PastAfter(s.past, s.phase, e) == s.past
    ensures
      var p, job := PhaseAfter(cfg, s, e), s.phase.job;
      match e
      case Accepted(x) => p == At(WriteGz, job.(x := x))
      case Refused(_) => p == At(Unwind, job.(ok := false))
      case WroteReleases(_) => p == At(RemoveDelta, job)
      case RemovedDelta(_) => p == At(ReadPrevious, job)
      case ReadIndex(fetched, url) =>
        var previous := PreviousVersion(cfg.prefix, s.files, s.bucket, fetched);
        p == At(WriteIndex, job.(index := Advance(previous, job.x.meta.fullSha, url)))
      case Validated => p == At(Connect, job)
      case Connected => p == At(PutGz, job)
      case _ => true
  {
  }

  lemma LatePhases(cfg: Config, s: State, e: Event)
    requires e.DroppedDelta? || e.Stamped? || e.BackedUp? || e.BackupFailed? || e.BackupsShed?
          || e.ArchivesShed? || e.ArchivesDone? || e.CleanedUp?
    requires Enabled(cfg, s, e)
    ensures PastAfter(s.past, s.phase, e).published == s.past.published
    ensures PastAfter(s.past, s.phase, e).warned == s.past.warned + if IsWarning(e) then 1 else 0
    ensures
      var p, job := PhaseAfter(cfg, s, e), s.phase.job;
      match e
      case DroppedDelta(_) => p == At(PutIndex, job)
      case Stamped(now) => p == At(ArchiveIndex, job.(archivedAt := now))
      case BackedUp(_, lost) => p == if lost then GoOn(AfterBackup(cfg), Warned(job)) else At(ShedBackups, job)
      case BackupFailed => p == GoOn(AfterBackup(cfg), Warned(job))
      case BackupsShed(_) => p == GoOn(AfterBackup(cfg), job)
      case ArchivesShed(_) => p == s.phase
      case ArchivesDone => p == GoOn(Unwind, job)
      case CleanedUp => p == Idle
      case _ => true
  {
  }

  lemma ShedPhase(cfg: Config, s: State, gone: set<string>)
    requires s.phase.At? && s.phase.stage == ShedBackups
    requires gone != {} ==> cfg.backupKeep >= 0 && gone <= Retention.Surplus(s.bucket.Keys, cfg.backupKeep)
    ensures Enabled(cfg, s, BackupsShed(gone)) && BucketAfter(cfg, s, BackupsShed(gone)) == s.bucket - gone
    ensures PhaseAfter(cfg, s, BackupsShed(gone)) == GoOn(AfterBackup(cfg), s.phase.job)
    ensures PastAfter(s.past, s.phase, BackupsShed(gone)) == s.past
  {
  }

  lemma ArchivesShedPhase(cfg: Config, s: State, gone: set<string>)
    requires s.phase.At? && s.phase.stage == ShedArchives && gone <= Under(s.bucket.Keys, ARCHIVE)
    ensures Enabled(cfg, s, ArchivesShed(gone)) && BucketAfter(cfg, s, ArchivesShed(gone)) == s.bucket - gone
    ensures PhaseAfter(cfg, s, ArchivesShed(gone)) == s.phase
    ensures PastAfter(s.past, s.phase, ArchivesShed(gone)) == s.past
  {
  }

  /** What a pruning of archives deletes lies under "archive/". */
  lemma PrunedUnderArchive(
    objects: set<string>, keep: int, r: Retention.PruneResult, gone: set<string>, missed: set<string>)
    requires Retention.PrunedArchives(objects, keep, r, gone, missed)
    ensures gone <= Under(objects, ARCHIVE)
  {
    match r
    case Pruned(n) => FirstUnderArchive(objects, n);
    case DeleteFailed(n) => FirstUnderArchive(objects, n + 1);
    case Panicked => FirstUnderArchive(objects, |Text.Sorted(Retention.Groups(objects))|);
    case ListFailed =>
  }

  lemma FirstUnderArchive(objects: set<string>, n: nat)
    requires n <= |Text.Sorted(Retention.Groups(objects))|
    ensures Retention.FirstGroups(objects, n) <= Under(objects, ARCHIVE)
  {
  }

  /** At most one artifact differs between the two sets of files. */
  predicate OnlyChanges(a: Artifact, before: Files, after: Files) {
    forall b: Artifact :: b != a ==> (b in before <==> b in after) && (b in before ==> before[b] == after[b])
  }

  /** What a backup pruning, done or not, has removed. */
  ghost predicate BackupsPruned(before: Objects, keep: int, reliable: bool, gone: set<string>, done: bool) {
    && (gone != {} ==> done && keep >= 0 && gone <= Retention.Surplus(before.Keys, keep))
    && (done && reliable && keep >= 0 && |Under(before.Keys, BACKUPS)| - keep <= MAX_KEYS ==>
          gone == Retention.Surplus(before.Keys, keep))
  }

  /** What an archive pruning has removed; one that never got a listing, nothing. */
  ghost predicate ArchivesPruned(
    before: Objects, keep: int, reliable: bool, done: Retention.PruneResult, gone: set<string>, missed: set<string>)
  {
    && gone <= Under(before.Keys, ARCHIVE)
    && (reliable ==> missed == {})
    && if done.ListFailed? then gone == {} else Retention.PrunedArchives(before.Keys, keep, done, gone, missed)
  }

  /** PruneDBBackups, its errors dropped; it panics on a negative keep. */
  method PruneBackupKeys(b: Bucket, keep: int) returns (panics: bool, ghost gone: set<string>)
    modifies b
    ensures b.objects == old(b.objects) - gone
    ensures BackupsPruned(old(b.objects), keep, b.reliable, gone, !panics)
    ensures (panics ==> keep < 0 && gone == {}) && (b.reliable ==> (panics <==> keep < 0))
  {
    ghost var missed;
    var result: Retention.PruneResult;
    result, gone, missed := Retention.PruneDBBackups(b, keep);
    panics := result.Panicked?;
  }

  class Host {
    const cfg: Config
    const bucket: Bucket
    /** Nothing fails by itself here, and nobody kills the process. */
    const calm: bool
    var files: Files
    var db: Option<Snapshot>
    var temps: nat
    var clock: nat

    ghost const start: State
    ghost var trace: seq<Event>
    ghost var model: State

    constructor (cfg: Config, bucket: Bucket, files: Files, db: Option<Snapshot>, clock: nat, calm: bool)
      requires FourDigitYear(clock)
      ensures Valid() && model.phase.Idle? && trace == []
      ensures this.cfg == cfg && this.bucket == bucket && this.files == files && this.db == db && this.calm == calm
    {
      this.cfg, this.bucket, this.files, this.db, this.clock, this.temps := cfg, bucket, files, db, clock, 0;
      this.calm := calm;
      ghost var s := State(files, db, 0, bucket.objects, clock, Idle, History(0, 0, 0, false, [], None, [], 0, 0));
      this.start, this.model, this.trace := s, s, [];
    }

    /** The recorded trace is legal and leads to the present stores. */
    ghost predicate Valid()
      reads this, bucket
    {
      && start.phase.Idle? && Witnesses.Leads(cfg, start, trace, model)
      && model.files == files && model.db == db && model.temps == temps
      && model.clock == clock && model.bucket == bucket.objects && FourDigitYear(clock)
    }

    ghost predicate AtStage(s: Stage)
      reads this, bucket
    {
      Valid() && model.phase.At? && model.phase.stage == s
    }

    ghost predicate Ended()
      reads this, bucket
    {
      Valid() && model.phase.Idle?
    }

    /** On the way out with an error; the snapshot is still to be removed. */
    ghost predicate Failing()
      reads this, bucket
    {
      AtStage(Unwind) && !model.phase.job.ok
    }

    ghost function CurrentJob(): Job
      requires model.phase.At?
      reads this
    {
      model.phase.job
    }

    /** Since then the trace has grown by these many warnings. */
    twostate predicate Told(n: nat)
      reads this
    {
      old(trace) <= trace && model.past.warned == old(model.past.warned) + n
    }

    /** Since then the trace has grown, but by no warning and no index put. */
    twostate predicate Quiet()
      reads this
    {
      Told(0) && model.past.published == old(model.past.published)
    }

    /** Since then these many warnings, and no index put. */
    twostate predicate Noted(n: nat)
      reads this
    {
      Told(n) && model.past.published == old(model.past.published)
    }

    /** Since then no warning, and at most one index put, of this version. */
    twostate predicate MayHavePut(version: nat)
      reads this
    {
      && Told(0)
      && (model.past.published == old(model.past.published)
          || model.past.published == old(model.past.published) + [version])
    }

    /** The stores have been changed as the event says: record it. */
    ghost method Record(e: Event)
      requires start.phase.Idle? && Witnesses.Leads(cfg, start, trace, model) && Enabled(cfg, model, e)
      requires
        && FilesAfter(model.files, model.phase, e) == files && DbAfter(cfg, model, e) == db
        && TempsAfter(model.temps, e) == temps && ClockAfter(model.clock, e) == clock
        && BucketAfter(cfg, model, e) == bucket.objects && FourDigitYear(clock)
      modifies this`model, this`trace
      ensures Valid()
      ensures model.phase == PhaseAfter(cfg, old(model), e)
      ensures model.past == PastAfter(old(model.past), old(model.phase), e)
      ensures trace == old(trace) + [e]
    {
      Witnesses.LeadsOn(cfg, start, trace, model, e);
      model, trace := Apply(cfg, model, e), trace + [e];
    }

    /** A request to the disk, the network or a library works, or it does not. */
    method Works() returns (ok: bool)
      ensures calm ==> ok
    {
      ok := *;
      ok := ok || calm;
    }

    /** The process may be killed here. */
    method MayDie() returns (dead: bool)
      requires Valid() && model.phase.At?
      modifies this`model, this`trace
      ensures calm ==> !dead
      ensures dead ==> Ended() && Quiet()
      ensures !dead ==> Valid() && model == old(model) && trace == old(trace)
    {
      var alive := Works();
      dead := !alive;
      if dead {
        CrashPhase(cfg, model);
        Record(Crash);
      }
    }

    /** An error that makes the run return before there is a snapshot. */
    ghost method ReturnEarly(stage: Stage)
      requires AtStage(stage) && Fatal(cfg, stage) && Rank(stage) <= Rank(TakeSnapshot)
      modifies this`model, this`trace
      ensures Ended() && Quiet()
    {
      FailPhase(cfg, model);
      Record(Fail);
    }

    /** An error that makes the run return by way of the snapshot's cleanup. */
    ghost method Return(stage: Stage)
      requires AtStage(stage) && Fatal(cfg, stage) && Rank(stage) > Rank(TakeSnapshot)
      modifies this`model, this`trace
      ensures Failing() && Quiet()
    {
      FailPhase(cfg, model);
      Record(Fail);
    }

    method WriteWhole(ghost stage: Stage, a: Artifact, c: Content)
      requires AtStage(stage) && IsWrite(stage)
      requires a == WriteArtifact(stage) && c == WriteContent(stage, CurrentJob())
      modifies this`files, this`model, this`trace
      ensures AtStage(Following(cfg, stage)) && CurrentJob() == old(CurrentJob()) && files == old(files)[a := c]
      ensures Quiet()
    {
      WrotePhase(cfg, model);
      files := files[a := c];
      Record(Wrote);
    }

    method WriteTorn(ghost stage: Stage, a: Artifact, bytes: Bytes)
      requires AtStage(stage) && IsWrite(stage) && a == WriteArtifact(stage)
      modifies this`files, this`model, this`trace
      ensures Failing() && Quiet() && files == old(files)[a := Torn(bytes)]
    {
      TornPhase(cfg, model, bytes);
      files := files[a := Torn(bytes)];
      Record(Tore(bytes));
    }

    /** os.WriteFile of the bundle, the meta or the index. */
    method WriteFile(ghost stage: Stage, a: Artifact, c: Content) returns (r: Step)
      requires AtStage(stage) && IsWrite(stage)
      requires a == WriteArtifact(stage) && c == WriteContent(stage, CurrentJob())
      modifies this`files, this`model, this`trace
      ensures r.Ok? ==> AtStage(Following(cfg, stage)) && CurrentJob() == old(CurrentJob()) && files == old(files)[a := c]
      ensures r.Err? ==> Failing()
      ensures r.Dead? ==> Ended() && files == old(files)
      ensures OnlyChanges(a, old(files), files)
      ensures calm ==> r.Ok?
      ensures Quiet()
    {
      var dead := MayDie();
      if dead { return Dead; }
      var whole := Works();
      var begun: bool := *;
      if whole {
        WriteWhole(stage, a, c);
        r := Ok;
      } else if begun {
        var bytes: Bytes := *;
        WriteTorn(stage, a, bytes);
        r := Err;
      } else {
        Return(stage);
        r := Err;
      }
    }

    method Upload(ghost stage: Stage, a: Artifact, key: string, answered: bool)
      requires AtStage(stage) && IsPut(stage) && a == PutArtifact(stage) && a in files
      requires KeyDefined(stage, CurrentJob()) && key == PutKey(cfg, stage, CurrentJob())
      modifies this`model, this`trace, bucket
      ensures Valid() && bucket.objects == old(bucket.objects)[key := files[a]]
      ensures answered ==> model.phase == GoOn(Following(cfg, stage), old(CurrentJob()))
      ensures !answered ==> Failing()
      ensures model.past.published == old(model.past.published) + PublishedBy(stage, old(CurrentJob()))
      ensures Told(0)
    {
      PutPhase(cfg, model, !answered);
      bucket.objects := bucket.objects[key := files[a]];
      Record(Put(!answered));
    }

    /** PutObject of the artifact that a stage uploads, under its key. */
    method PutFile(ghost stage: Stage, a: Artifact, key: string) returns (r: Step)
      requires AtStage(stage) && IsPut(stage) && a == PutArtifact(stage) && a in files
      requires KeyDefined(stage, CurrentJob()) && key == PutKey(cfg, stage, CurrentJob())
      modifies this`model, this`trace, bucket
      ensures files == old(files)
      ensures r.Ok? ==> Valid() && model.phase == GoOn(Following(cfg, stage), old(CurrentJob()))
      ensures r.Ok? ==> bucket.objects == old(bucket.objects)[key := files[a]]
      ensures bucket.objects == old(bucket.objects) || bucket.objects == old(bucket.objects)[key := files[a]]
      ensures r.Ok? ==> model.past.published == old(model.past.published) + PublishedBy(stage, old(CurrentJob()))
      ensures calm ==> r.Ok?
      ensures r.Err? ==> Failing()
      ensures r.Dead? ==> Ended()
      ensures model.past.published == old(model.past.published)
           || model.past.published == old(model.past.published) + PublishedBy(stage, old(CurrentJob()))
      ensures Told(0)
    {
      var dead := MayDie();
      if dead { return Dead; }
      var answered := Works();
      var applied: bool := *;
      if answered || applied {
        Upload(stage, a, key, answered);
        r := if answered then Ok else Err;
      } else {
        Return(stage);
        r := Err;
      }
    }

    /** Passing over an artifact that is not there. */
    ghost method Skip(stage: Stage)
      requires AtStage(stage) && stage in {PutGz, PutMeta, ArchiveIndex, ArchiveGz} && PutArtifact(stage) !in files
      modifies this`model, this`trace
      ensures files == old(files)
      ensures Valid() && model.phase == GoOn(Following(cfg, stage), old(CurrentJob()))
      ensures Quiet()
    {
      Record(Skipped);
    }

    method Now() returns (now: nat)
      requires FourDigitYear(clock)
      ensures now >= clock && FourDigitYear(now)
    {
      var t: int := *;
      now := if t >= clock && FourDigitYear(t) then t else clock;
    }

    // ---- the steps before the export --------------------------------------

    ghost method BeginRun()
      requires Ended()
      modifies this`model, this`trace
      ensures files == old(files)
      ensures AtStage(if cfg.fetchProd then FetchDb else CheckDb) && CurrentJob() == NEW_JOB
      ensures trace == old(trace) + [Begin]
      ensures Quiet()
    {
      EarlyPhases(cfg, model, Begin);
      Record(Begin);
    }

    /** fetch.ProdDB: needs a source, and replaces the database by a whole one. */
    method FetchProd() returns (r: Step)
      requires AtStage(FetchDb)
      modifies this`db, this`model, this`trace
      ensures r.Ok? ==> AtStage(CheckDb) && CurrentJob() == old(CurrentJob()) && cfg.prodSource && db.Some?
      ensures !r.Ok? ==> Ended() && db == old(db)
      ensures calm ==> (r.Ok? <==> cfg.prodSource) && !r.Dead?
      ensures Quiet()
    {
      var dead := MayDie();
      if dead { return Dead; }
      var ok := Works();
      if !ok || !cfg.prodSource {
        ReturnEarly(FetchDb);
        return Err;
      }
      var source: Snapshot := *;
      EarlyPhases(cfg, model, Fetched(source));
      db := Some(source);
      Record(Fetched(source));
      r := Ok;
    }

    /** check_database: the file exists and is not empty. */
    method CheckDatabase() returns (r: Step)
      requires AtStage(CheckDb)
      modifies this`model, this`trace
      ensures r.Ok? ==> AtStage(if cfg.sync then SyncDb else TakeSnapshot) && CurrentJob() == old(CurrentJob())
                        && db.Some? && db.value != []
      ensures !r.Ok? ==> Ended()
      ensures calm ==> (r.Ok? <==> db.Some? && db.value != []) && !r.Dead?
      ensures Quiet()
    {
      var dead := MayDie();
      if dead { return Dead; }
      if db.None? || |db.value| == 0 {
        ReturnEarly(CheckDb);
        return Err;
      }
      EarlyPhases(cfg, model, Checked);
      Record(Checked);
      r := Ok;
    }

    /** pcgw.Sync: whether it fails or not, the database is some whole database. */
    method Sync() returns (r: Step)
      requires AtStage(SyncDb)
      modifies this`db, this`model, this`trace
      ensures files == old(files)
      ensures r.Ok? ==> AtStage(TakeSnapshot) && CurrentJob() == old(CurrentJob()) && db.Some?
      ensures r.Err? ==> AtStage(TakeSnapshot) && CurrentJob() == Warned(old(CurrentJob())) && db.Some?
      ensures r.Dead? ==> Ended()
      ensures calm ==> r.Ok?
      ensures Noted(if r.Err? then 1 else 0)
    {
      var dead := MayDie();
      if dead { return Dead; }
      var ok := Works();
      var synced: Snapshot := *;
      EarlyPhases(cfg, model, Synced(synced, ok));
      db := Some(synced);
      Record(Synced(synced, ok));
      r := if ok then Ok else Err;
    }

    /** snapshot.Backup: a consistent copy of the database in a temporary file. */
    method TakeBackup() returns (r: Step, snap: Snapshot)
      requires AtStage(TakeSnapshot) && db.Some?
      modifies this`temps, this`model, this`trace
      ensures files == old(files)
      ensures r.Ok? ==> AtStage(GuardExport) && CurrentJob() == old(CurrentJob()).(snap := snap)
                        && snap == db.value && temps == old(temps) + 1
      ensures !r.Ok? ==> Ended() && temps == old(temps)
      ensures calm ==> r.Ok?
      ensures Quiet()
    {
      var dead := MayDie();
      snap := db.value;
      if dead { return Dead, snap; }
      var ok := Works();
      if !ok {
        ReturnEarly(TakeSnapshot);
        return Err, snap;
      }
      EarlyPhases(cfg, model, Snapped);
      temps := temps + 1;
      Record(Snapped);
      r := Ok;
    }

    /** The deferred cleanup of the snapshot, which also runs on an error. */
    method Cleanup() returns (r: Step)
      requires AtStage(Unwind)
      modifies this`temps, this`model, this`trace
      ensures files == old(files)
      ensures Ended() && (r.Dead? ==> temps == old(temps)) && !r.Err?
      ensures r.Ok? && old(temps) > 0 ==> temps == old(temps) - 1
      ensures calm ==> r.Ok?
      ensures Quiet()
    {
      var dead := MayDie();
      if dead { return Dead; }
      LatePhases(cfg, model, CleanedUp);
      temps := if temps > 0 then temps - 1 else 0;
      Record(CleanedUp);
      r := Ok;
    }

    // ---- the export -------------------------------------------------------

    /** guardAgainstShrink, before any artifact is written. */
    method Guard(x: Export) returns (r: Step)
      requires AtStage(GuardExport)
      modifies this`model, this`trace
      ensures r.Ok? ==> AtStage(WriteGz) && CurrentJob() == old(CurrentJob()).(x := x)
                        && !ShrinkGuard.Refuses(files, x.meta.counts, x.forced)
      ensures calm ==> !r.Dead?
      ensures x.forced || Meta !in files || !files[Meta].MetaFile? ==> !r.Err?
      ensures r.Err? ==> Failing() && ShrinkGuard.Refuses(files, x.meta.counts, x.forced)
      ensures r.Dead? ==> Ended()
      ensures Quiet()
    {
      var dead := MayDie();
      if dead { return Dead; }
      if ShrinkGuard.Refuses(files, x.meta.counts, x.forced) {
        ExportPhases(cfg, model, Refused(x));
        Record(Refused(x));
        r := Err;
      } else {
        ExportPhases(cfg, model, Accepted(x));
        Record(Accepted(x));
        r := Ok;
      }
    }

    /** Writing the release history; errors are ignored. */
    method WriteHistory(added: Release) returns (r: Step)
      requires AtStage(WriteReleases)
      modifies this`files, this`model, this`trace
      ensures r.Ok? ==> AtStage(RemoveDelta) && CurrentJob() == old(CurrentJob())
      ensures OnlyChanges(Artifact.Releases, old(files), files)
      ensures Artifact.Releases in files && files != old(files) ==>
                files[Artifact.Releases].Torn? || files[Artifact.Releases] == Recorded(old(files), added)
      ensures !r.Ok? ==> r.Dead? && Ended()
      ensures calm ==> r.Ok? && files == old(files)[Artifact.Releases := Recorded(old(files), added)]
      ensures Quiet()
    {
      var dead := MayDie();
      if dead { return Dead; }
      var doc := Releases.UpdateManifestReleases(files, added);
      var whole := Works();
      var begun: bool, bytes: Bytes := *, *;
      ReplaceHistory(if whole then Some(ReleasesFile(doc)) else if begun then Some(Torn(bytes)) else None);
      r := Ok;
    }

    method ReplaceHistory(file: Option<Content>)
      requires AtStage(WriteReleases) && (file.Some? ==> file.value.ReleasesFile? || file.value.Torn?)
      modifies this`files, this`model, this`trace
      ensures AtStage(RemoveDelta) && CurrentJob() == old(CurrentJob())
      ensures files == if file.Some? then old(files)[Artifact.Releases := file.value] else old(files)
      ensures OnlyChanges(Artifact.Releases, old(files), files)
      ensures Quiet()
    {
      ExportPhases(cfg, model, WroteReleases(file));
      if file.Some? { files := files[Artifact.Releases := file.value]; }
      Record(WroteReleases(file));
    }

    /** Removing a local delta left from earlier versions; errors are ignored. */
    method RemoveLocalDelta() returns (r: Step)
      requires AtStage(RemoveDelta)
      modifies this`files, this`model, this`trace
      ensures r.Ok? ==> AtStage(ReadPrevious) && CurrentJob() == old(CurrentJob())
      ensures OnlyChanges(Delta, old(files), files) && files.Keys <= old(files).Keys
      ensures !r.Ok? ==> r.Dead? && Ended()
      ensures calm ==> r.Ok? && Delta !in files
      ensures Quiet()
    {
      var dead := MayDie();
      if dead { return Dead; }
      var removed := Works();
      ExportPhases(cfg, model, RemovedDelta(removed));
      if removed { files := files - {Delta}; }
      Record(RemovedDelta(removed));
      r := Ok;
    }

    /** previousIndex and AdvanceBundleIndex. */
    method NextIndex(sha: Digest, url: string) returns (r: Step, index: IndexDoc, ghost fetched: bool)
      requires AtStage(ReadPrevious) && sha == CurrentJob().x.meta.fullSha
      modifies this`model, this`trace
      ensures r.Ok? ==> AtStage(WriteIndex) && CurrentJob() == old(CurrentJob()).(index := index)
      ensures r.Ok? ==> index == Advance(PreviousVersion(cfg.prefix, files, bucket.objects, fetched), sha, url)
      ensures r.Ok? ==>
                && Safety.IsNextNumber(files, Safety.Live(cfg, bucket.objects, Index), fetched, index.version)
                && index.fullVersion == index.version && index.fullSha == sha && index.url == url
      ensures calm ==> r.Ok? && fetched
      ensures r.Err? ==> Failing()
      ensures r.Dead? ==> Ended()
      ensures Quiet()
    {
      index, fetched := IndexDoc(0, 0, url, sha), true;
      var dead := MayDie();
      if dead { return Dead, index, fetched; }
      var advances := Works();
      if !advances {
        Return(ReadPrevious);
        return Err, index, fetched;
      }
      var answered := Works();
      fetched := answered;
      ExportPhases(cfg, model, ReadIndex(answered, url));
      index := Advance(PreviousVersion(cfg.prefix, files, bucket.objects, answered), sha, url);
      Safety.NextNumber(cfg, files, bucket.objects, answered);
      Record(ReadIndex(answered, url));
      r := Ok;
    }

    /** validate_artifacts. */
    method ValidateArtifacts() returns (r: Step)
      requires AtStage(CheckDir)
      modifies this`model, this`trace
      ensures r.Ok? ==> AtStage(Connect) && CurrentJob() == old(CurrentJob()) && Validate.ValidDir(files)
      ensures r.Err? ==> Failing() && !Validate.ValidDir(files)
      ensures files == old(files) && bucket.objects == old(bucket.objects)
      ensures calm ==> !r.Dead?
      ensures r.Dead? ==> Ended()
      ensures Quiet()
    {
      var dead := MayDie();
      if dead { return Dead; }
      var errs := Validate.Dir(files);
      if |errs| > 0 {
        Return(CheckDir);
        r := Err;
      } else {
        PassValidation();
        r := Ok;
      }
    }

    ghost method PassValidation()
      requires AtStage(CheckDir) && Validate.ValidDir(files)
      modifies this`model, this`trace
      ensures AtStage(Connect) && CurrentJob() == old(CurrentJob())
      ensures Quiet()
    {
      ExportPhases(cfg, model, Validated);
      Record(Validated);
    }

    /** r2.New: a client needs R2 to be configured. */
    method NewClient() returns (r: Step)
      requires AtStage(Connect)
      modifies this`model, this`trace
      ensures files == old(files)
      ensures r.Ok? ==> AtStage(PutGz) && CurrentJob() == old(CurrentJob()) && cfg.r2
      ensures r.Err? ==> Failing()
      ensures r.Dead? ==> Ended()
      ensures calm ==> (r.Ok? <==> cfg.r2) && !r.Dead?
      ensures Quiet()
    {
      var dead := MayDie();
      if dead { return Dead; }
      var loaded := Works();
      if !cfg.r2 || !loaded {
        Return(Connect);
        return Err;
      }
      ExportPhases(cfg, model, Connected);
      Record(Connected);
      r := Ok;
    }

    // ---- the steps around the upload --------------------------------------

    /** Removing the live delta; errors are only logged. */
    method DropLiveDelta() returns (r: Step)
      requires AtStage(DropDelta)
      modifies this`model, this`trace, bucket
      ensures files == old(files)
      ensures r.Ok? ==> AtStage(PutIndex) && CurrentJob() == old(CurrentJob())
      ensures !r.Ok? ==> r.Dead? && Ended()
      ensures calm ==> r.Ok? && bucket.objects == old(bucket.objects) - {LiveKey(cfg.prefix, Delta)}
      ensures bucket.objects == old(bucket.objects)
           || bucket.objects == old(bucket.objects) - {LiveKey(cfg.prefix, Delta)}
      ensures Quiet()
    {
      var dead := MayDie();
      if dead { return Dead; }
      var removed := Works();
      LatePhases(cfg, model, DroppedDelta(removed));
      if removed { bucket.objects := bucket.objects - {LiveKey(cfg.prefix, Delta)}; }
      Record(DroppedDelta(removed));
      r := Ok;
    }

    /** Reading the clock for the archive's name. */
    method StampArchive() returns (r: Step, now: nat)
      requires AtStage(NameArchive)
      modifies this`clock, this`model, this`trace
      ensures files == old(files)
      ensures r.Ok? ==> AtStage(ArchiveIndex) && CurrentJob() == old(CurrentJob()).(archivedAt := now)
                        && FourDigitYear(now)
      ensures old(clock) <= now && (r.Ok? ==> clock == now)
      ensures !r.Ok? ==> r.Dead? && Ended()
      ensures calm ==> r.Ok?
      ensures Quiet()
    {
      now := Now();
      var dead := MayDie();
      if dead { return Dead, now; }
      LatePhases(cfg, model, Stamped(now));
      clock := now;
      Record(Stamped(now));
      r := Ok;
    }

    /** UploadDBBackup: gzip the snapshot and put it under a key named by the clock. */
    method PutBackupObject(snap: Snapshot) returns (r: Step, ghost now: nat)
      requires AtStage(PutBackup) && snap == CurrentJob().snap
      modifies this`clock, this`model, this`trace, bucket
      ensures files == old(files)
      ensures r.Ok? ==> AtStage(ShedBackups) && CurrentJob() == old(CurrentJob())
      ensures r.Err? ==> Valid() && model.phase == GoOn(AfterBackup(cfg), Warned(old(CurrentJob())))
      ensures r.Dead? ==> Ended()
      ensures old(clock) <= now && FourDigitYear(now)
      ensures r.Ok? ==> clock == now && bucket.objects == old(bucket.objects)[BackupKey(now) := BackupFile(snap)]
      ensures bucket.objects == old(bucket.objects)
           || bucket.objects == old(bucket.objects)[BackupKey(now) := BackupFile(snap)]
      ensures calm ==> r.Ok?
      ensures Noted(if r.Err? then 1 else 0)
    {
      var read := Now();
      now := read;
      var dead := MayDie();
      if dead { return Dead, now; }
      var answered := Works();
      var applied: bool := *;
      if answered || applied {
        StoreBackup(snap, read, answered);
        r := if answered then Ok else Err;
      } else {
        BackupWarning();
        r := Err;
      }
    }

    method StoreBackup(snap: Snapshot, now: nat, answered: bool)
      requires AtStage(PutBackup) && snap == CurrentJob().snap && now >= clock && FourDigitYear(now)
      modifies this`clock, this`model, this`trace, bucket
      ensures Valid() && Noted(if answered then 0 else 1)
      ensures clock == now && bucket.objects == old(bucket.objects)[BackupKey(now) := BackupFile(snap)]
      ensures model.phase ==
              if answered then At(ShedBackups, old(CurrentJob())) else GoOn(AfterBackup(cfg), Warned(old(CurrentJob())))
    {
      LatePhases(cfg, model, BackedUp(now, !answered));
      bucket.objects := bucket.objects[BackupKey(now) := BackupFile(snap)];
      clock := now;
      Record(BackedUp(now, !answered));
    }

    ghost method BackupWarning()
      requires AtStage(PutBackup)
      modifies this`model, this`trace
      ensures Valid() && model.phase == GoOn(AfterBackup(cfg), Warned(old(CurrentJob())))
      ensures Noted(1)
    {
      LatePhases(cfg, model, BackupFailed);
      Record(BackupFailed);
    }

    /** PruneDBBackups; an error is recorded but is not a failure of the step. */
    method PruneBackups() returns (r: Step, ghost gone: set<string>)
      requires AtStage(ShedBackups)
      modifies this`model, this`trace, bucket
      ensures files == old(files)
      ensures r.Ok? ==> Valid() && model.phase == GoOn(AfterBackup(cfg), old(CurrentJob()))
      ensures r.Err? ==> Failing() && cfg.backupKeep < 0
      ensures r.Dead? ==> Ended()
      ensures calm ==> !r.Dead? && (bucket.reliable ==> (r.Ok? <==> cfg.backupKeep >= 0))
      ensures bucket.objects == old(bucket.objects) - gone
      ensures BackupsPruned(old(bucket.objects), cfg.backupKeep, bucket.reliable, gone, r.Ok?)
      ensures Quiet()
    {
      gone := {};
      NothingRemoved(bucket.objects, gone);
      var dead := MayDie();
      if dead { return Dead, gone; }
      var panics;
      panics, gone := ShedBackupObjects();
      if panics {
        Return(ShedBackups);
        r := Err;
      } else {
        r := Ok;
      }
    }

    method ShedBackupObjects() returns (panics: bool, ghost gone: set<string>)
      requires AtStage(ShedBackups)
      modifies this`model, this`trace, bucket
      ensures panics ==> AtStage(ShedBackups) && cfg.backupKeep < 0
      ensures !panics ==> Valid() && model.phase == GoOn(AfterBackup(cfg), old(CurrentJob()))
      ensures bucket.reliable ==> (panics <==> cfg.backupKeep < 0)
      ensures bucket.objects == old(bucket.objects) - gone
      ensures BackupsPruned(old(bucket.objects), cfg.backupKeep, bucket.reliable, gone, !panics)
      ensures Quiet()
    {
      panics, gone := PruneBackupKeys(bucket, cfg.backupKeep);
      if panics {
        NothingRemoved(old(bucket.objects), gone);
      } else {
        ShedPhase(cfg, model, gone);
        Record(BackupsShed(gone));
      }
    }

    /** PruneArchives; an error, or the panic on a negative keep, ends the run. */
    method PruneArchiveGroups()
        returns (r: Step, ghost done: Retention.PruneResult, ghost gone: set<string>, ghost missed: set<string>)
      requires AtStage(ShedArchives)
      modifies this`model, this`trace, bucket
      ensures files == old(files)
      ensures r.Ok? ==> AtStage(Unwind) && CurrentJob() == old(CurrentJob()).(ok := true) && cfg.keep >= 0
      ensures r.Ok? ==> done.Pruned?
      ensures bucket.objects == old(bucket.objects) - gone
      ensures ArchivesPruned(old(bucket.objects), cfg.keep, bucket.reliable, done, gone, missed)
      ensures calm && bucket.reliable ==> (r.Ok? <==> cfg.keep >= 0) && !r.Dead?
      ensures r.Err? ==> Failing()
      ensures r.Dead? ==> Ended()
      ensures Quiet()
    {
      done, gone, missed := Retention.PruneResult.ListFailed, {}, {};
      NothingRemoved(bucket.objects, gone);
      var dead := MayDie();
      if dead { return Dead, done, gone, missed; }
      var client := Works();
      if !client {
        Return(ShedArchives);
        return Err, done, gone, missed;
      }
      var result;
      result, gone, missed := ShedArchiveGroups();
      done := result;
      if result.Pruned? {
        ArchivesAreDone();
        r := Ok;
      } else {
        Return(ShedArchives);
        r := Err;
      }
    }

    ghost method ArchivesAreDone()
      requires AtStage(ShedArchives)
      modifies this`model, this`trace
      ensures AtStage(Unwind) && CurrentJob() == old(CurrentJob()).(ok := true)
      ensures Quiet()
    {
      LatePhases(cfg, model, ArchivesDone);
      Record(ArchivesDone);
    }

    method ShedArchiveGroups()
        returns (result: Retention.PruneResult, ghost gone: set<string>, ghost missed: set<string>)
      requires AtStage(ShedArchives)
      modifies this`model, this`trace, bucket
      ensures AtStage(ShedArchives) && CurrentJob() == old(CurrentJob())
      ensures bucket.objects == old(bucket.objects) - gone
      ensures ArchivesPruned(old(bucket.objects), cfg.keep, bucket.reliable, result, gone, missed)
      ensures result.Pruned? ==> cfg.keep >= 0
      ensures bucket.reliable && cfg.keep >= 0 ==> result.Pruned?
      ensures Quiet()
    {
      ghost var keys := bucket.objects.Keys;
      result, gone, missed := Retention.PruneArchives(bucket, cfg.keep);
      if !result.ListFailed? {
        PrunedUnderArchive(keys, cfg.keep, result, gone, missed);
      }
      ArchivesShedPhase(cfg, model, gone);
      Record(ArchivesShed(gone));
    }

    // ---- seeding ----------------------------------------------------------

    /** Rename of a fetched database over the missing one. */
    method SeedFromSource() returns (r: Step)
      requires Ended()
      modifies this`db, this`model, this`trace
      ensures Ended() && !r.Dead? && (r.Ok? ==> cfg.prodSource && db.Some?)
      ensures trace == if r.Ok? then old(trace) + [Seeded(db.value)] else old(trace)
      ensures calm && cfg.prodSource ==> r.Ok?
      ensures r.Err? ==> db == old(db)
      ensures Quiet()
    {
      var ok := Works();
      if !ok || !cfg.prodSource { return Err; }
      var source: Snapshot := *;
      db := Some(source);
      Record(Seeded(source));
      r := Ok;
    }

    /** RestoreDBBackup with an empty key: find the newest backup, download it into
        a temporary file next to the database and rename it over the database.  Only
        the rename shows; an interrupted restore leaves the database as it was. */
    method RestoreNewest() returns (r: Step, ghost key: string)
      requires Ended()
      modifies this`db, this`model, this`trace
      ensures Ended() && !r.Dead?
      ensures trace == if r.Ok? then old(trace) + [Restored] else old(trace)
      ensures r.Ok? ==> cfg.r2 && NewestBackup(bucket.objects, key) && db == Some(bucket.objects[key].db)
      ensures calm && bucket.reliable && cfg.r2 && (exists k :: NewestBackup(bucket.objects, k)) ==> r.Ok?
      ensures r.Err? ==> db == old(db)
      ensures Quiet()
    {
      key := "";
      var client := Works();
      if !cfg.r2 || !client { return Err, key; }
      var latest := Retention.LatestDBBackupKey(bucket);
      if !latest.Latest? { return Err, key; }
      key := latest.key;
      OnlyNewest(bucket.objects, latest.key);
      if latest.key !in bucket.objects { return Err, key; }
      var body := bucket.objects[latest.key];
      var downloaded := Works();
      if !downloaded || !body.BackupFile? { return Err, key; }
      var temp := body.db;
      var renamed := Works();
      if !renamed { return Err, key; }
      RestoredDb(cfg, model, latest.key);
      db := Some(temp);
      Record(Restored);
      r := Ok;
    }
  }

  /** The release history after one more entry. */
  function Recorded(files: Files, added: Release): Content {
    ReleasesFile(Releases.Upsert(Releases.Entries(files), Releases.Trimmed(added)))
  }

  lemma NothingRemoved(objects: Objects, gone: set<string>)
    requires gone == {}
    ensures objects - gone == objects
  {
  }

  lemma OnlyNewest(objects: Objects, key: string)
    requires Retention.IsGreatest(key, Backups(objects))
    ensures forall k :: NewestBackup(objects, k) ==> k == key
  {
    forall k | NewestBackup(objects, k) ensures k == key {
      Retention.GreatestUnique(k, key, Backups(objects));
    }
  }

  lemma RestoredDb(cfg: Config, s: State, key: string)
    requires s.phase.Idle? && cfg.r2 && NewestBackup(s.bucket, key)
    ensures Enabled(cfg, s, Restored) && DbAfter(cfg, s, Restored) == Some(s.bucket[key].db)
    ensures PhaseAfter(cfg, s, Restored) == Idle && PastAfter(s.past, s.phase, Restored) == s.past
  {
    OnlyNewest(s.bucket, key);
  }
}
