/** The publisher as a state machine over its three stores: the files in OUT_DIR,
    the local database, and the bucket.

    Every file write, object put, deletion and rename is one event.  A write may
    be torn, a put may take effect and still be reported as failed, the process
    may stop between any two events, and between runs OUT_DIR or the database
    may be wiped.  Exec replays a trace of events; Legal says that the program
    can produce it.  There is one publisher, and the bucket is read up to date. */
module Protocol {
  import opened Calendar
  import opened Store
  import opened Names
  import opened Buckets
  import Retention
  import ShrinkGuard
  import Validate

  /** r2 says that R2 is configured, prodSource that PROD_DB_SRC is set. */
  datatype Config = Config(
    prefix: string,
    fetchProd: bool, prodSource: bool, r2: bool, sync: bool,
    dbBackup: bool, backupKeep: int, cleanup: bool, keep: int)

  /** What the store exports from a snapshot, and whether FORCE_PUBLISH is set. */
  datatype Export = Export(bundle: Bundle, meta: MetaDoc, forced: bool)

  /** The next thing a run does.  Connect makes the client for the upload; Unwind is
      the deferred snapshot cleanup. */
  datatype Stage =
    | FetchDb | CheckDb | SyncDb | TakeSnapshot
    | GuardExport | WriteGz | WriteMeta | WriteReleases | RemoveDelta | ReadPrevious | WriteIndex
    | CheckDir | Connect
    | PutGz | PutMeta | DropDelta | PutIndex | NameArchive | ArchiveIndex | ArchiveGz
    | PutBackup | ShedBackups | ShedArchives
    | Unwind

  function Rank(s: Stage): nat {
    match s
    case FetchDb => 0 case CheckDb => 1 case SyncDb => 2 case TakeSnapshot => 3
    case GuardExport => 4 case WriteGz => 5 case WriteMeta => 6 case WriteReleases => 7
    case RemoveDelta => 8 case ReadPrevious => 9 case WriteIndex => 10
    case CheckDir => 11 case Connect => 12
    case PutGz => 13 case PutMeta => 14 case DropDelta => 15 case PutIndex => 16
    case NameArchive => 17 case ArchiveIndex => 18 case ArchiveGz => 19
    case PutBackup => 20 case ShedBackups => 21 case ShedArchives => 22
    case Unwind => 23
  }

  /** The variables of a run: its snapshot, its export, the index it advances to,
      the instant that names its archive, its warnings, and how it ends. */
  datatype Job = Job(snap: Snapshot, x: Export, index: IndexDoc, archivedAt: nat, warnings: nat, ok: bool)

  const NO_EXPORT := Export(Bundle([], NotGzip), MetaDoc(Counts(0, 0, 0), "", "", NoDigest, ""), false)
  const NEW_JOB := Job([], NO_EXPORT, IndexDoc(0, 0, "", NoDigest), 0, 0, false)

  datatype Phase = Idle | At(stage: Stage, job: Job)

  datatype Stored = Stored(at: nat, snap: Snapshot)

  /** What happened so far, for stating properties; the program does not read it.

      run counts the runs; bundleRun and indexRun are the runs that wrote the live
      bundle and index; dirty holds from a bundle put until the next index put;
      published lists the versions of all index puts; lastBackup is the backup put
      last; chain lists the counts of the exports that the guard compared, each
      with the next, up to the present meta file; leaked counts the snapshot files
      that a crash left behind; warned counts the warnings. */
  datatype History = History(
    run: nat, bundleRun: nat, indexRun: nat, dirty: bool, published: seq<nat>,
    lastBackup: Option<Stored>, chain: seq<Counts>, leaked: nat, warned: nat)

  /** temps counts the snapshot files next to the database. */
  datatype State = State(
    files: Files, db: Option<Snapshot>, temps: nat, bucket: Objects, clock: nat, phase: Phase, past: History)

  /** Before the first run: no files, nothing in the bucket; a database may be there. */
  predicate Fresh(s: State) {
    && s.files == map[] && s.bucket == map[] && s.temps == 0 && s.phase.Idle?
    && s.past == History(0, 0, 0, false, [], None, [], 0, 0)
  }

  datatype Event =
    | Begin
    | Fetched(db: Snapshot)
    | Checked
    | Synced(db: Snapshot, ok: bool)
    | Snapped
    | Accepted(x: Export)
    | Refused(x: Export)
    | Wrote
    | Tore(bytes: Bytes)
    | WroteReleases(file: Option<Content>)
    | RemovedDelta(removed: bool)
    | ReadIndex(fetched: bool, url: string)
    | Validated
    | Connected
    | Put(lost: bool)
    | Skipped
    | DroppedDelta(removed: bool)
    | Stamped(now: nat)
    | BackedUp(now: nat, lost: bool)
    | BackupFailed
    | BackupsShed(gone: set<string>)
    | ArchivesShed(gone: set<string>)
    | ArchivesDone
    | Fail
    | CleanedUp
    | Crash
    | WipeOut
    | WipeDb
    | Restored
    | Seeded(db: Snapshot)

  // ---- reading the stores -------------------------------------------------

  function LocalVersion(files: Files): Option<nat> {
    if Index in files && files[Index].IndexFile? then Some(files[Index].index.version) else None
  }

  /** The version of the live index; 0 while none has been published. */
  function LiveVersion(prefix: string, bucket: Objects): nat {
    var k := LiveKey(prefix, Index);
    if k in bucket && bucket[k].IndexFile? then bucket[k].index.version else 0
  }

  /** previousIndex: the local index if it parses, else the live one if it can be
      fetched, else version 0. */
  function PreviousVersion(prefix: string, files: Files, bucket: Objects, fetched: bool): nat {
    match LocalVersion(files)
    case Some(v) => v
    case None => if fetched then LiveVersion(prefix, bucket) else 0
  }

  /** store.AdvanceBundleIndex: the previous version plus one, in both fields. */
  function Advance(previous: nat, sha: Digest, url: string): IndexDoc {
    IndexDoc(previous + 1, previous + 1, url, sha)
  }

  /** The artifact that a put stage uploads, and the key it uploads it to. */
  function PutArtifact(s: Stage): Artifact {
    match s
    case PutMeta => Meta
    case PutIndex => Index
    case ArchiveIndex => Index
    case _ => Gz
  }

  predicate IsPut(s: Stage) {
    s.PutGz? || s.PutMeta? || s.PutIndex? || s.ArchiveIndex? || s.ArchiveGz?
  }

  predicate IsWrite(s: Stage) {
    s.WriteGz? || s.WriteMeta? || s.WriteIndex?
  }

  /** The archive's name is built from an instant of the years 0 to 9999. */
  predicate KeyDefined(s: Stage, job: Job) {
    s.ArchiveIndex? || s.ArchiveGz? ==> FourDigitYear(job.archivedAt)
  }

  function PutKey(cfg: Config, s: Stage, job: Job): string
    requires KeyDefined(s, job)
  {
    if s.ArchiveIndex? || s.ArchiveGz? then ArchiveKey(job.index.version, job.archivedAt, PutArtifact(s))
    else LiveKey(cfg.prefix, PutArtifact(s))
  }

  function WriteArtifact(s: Stage): Artifact {
    match s
    case WriteMeta => Meta
    case WriteIndex => Index
    case _ => Gz
  }

  function WriteContent(s: Stage, job: Job): Content {
    match s
    case WriteMeta => MetaFile(job.x.meta)
    case WriteIndex => IndexFile(job.index)
    case _ => BundleFile(job.x.bundle)
  }

  /** An error in these stages makes Weekly return it; the other stages log it,
      turn it into a warning, or panic on a negative keep. */
  predicate Fatal(cfg: Config, s: Stage) {
    match s
    case SyncDb | WriteReleases | RemoveDelta | DropDelta | NameArchive | PutBackup | Unwind => false
    case ShedBackups => cfg.backupKeep < 0
    case _ => true
  }

  function AfterUpload(cfg: Config): Stage {
    if cfg.dbBackup then PutBackup else AfterBackup(cfg)
  }

  function AfterBackup(cfg: Config): Stage {
    if cfg.cleanup then ShedArchives else Unwind
  }

  /** The stage after a successful write, put or skip. */
  function Following(cfg: Config, s: Stage): Stage {
    match s
    case WriteGz => WriteMeta
    case WriteMeta => WriteReleases
    case WriteIndex => CheckDir
    case PutGz => PutMeta
    case PutMeta => DropDelta
    case PutIndex => NameArchive
    case ArchiveIndex => ArchiveGz
    case ArchiveGz => AfterUpload(cfg)
    case _ => Unwind
  }

  ghost function Backups(bucket: Objects): set<string> {
    Under(bucket.Keys, BACKUPS)
  }

  // ---- the transition system ----------------------------------------------

  /** Events between runs: a run begins, a wipe, or the database is seeded. */
  predicate BetweenRuns(e: Event) {
    e.Begin? || e.WipeOut? || e.WipeDb? || e.Seeded? || e.Restored?
  }

  /** The stage at which an event can happen. */
  predicate OnStage(cfg: Config, stage: Stage, e: Event) {
    match e
    case Fetched(_) => stage == FetchDb
    case Checked => stage == CheckDb
    case Synced(_, _) => stage == SyncDb
    case Snapped => stage == TakeSnapshot
    case Accepted(_) => stage == GuardExport
    case Refused(_) => stage == GuardExport
    case Wrote => IsWrite(stage)
    case Tore(_) => IsWrite(stage)
    case WroteReleases(_) => stage == WriteReleases
    case RemovedDelta(_) => stage == RemoveDelta
    case ReadIndex(_, _) => stage == ReadPrevious
    case Validated => stage == CheckDir
    case Connected => stage == Connect
    case Put(_) => IsPut(stage)
    case Skipped => stage in {PutGz, PutMeta, ArchiveIndex, ArchiveGz}
    case DroppedDelta(_) => stage == DropDelta
    case Stamped(_) => stage == NameArchive
    case BackedUp(_, _) => stage == PutBackup
    case BackupFailed => stage == PutBackup
    case BackupsShed(_) => stage == ShedBackups
    case ArchivesShed(_) => stage == ShedArchives
    case ArchivesDone => stage == ShedArchives
    case Fail => Fatal(cfg, stage)
    case CleanedUp => stage == Unwind
    case Crash => true
    case _ => false
  }

  predicate InPlace(cfg: Config, phase: Phase, e: Event) {
    if BetweenRuns(e) then phase.Idle? else phase.At? && OnStage(cfg, phase.stage, e)
  }

  /** What the stores must look like for an event to happen in its place. */
  ghost predicate Possible(cfg: Config, s: State, e: Event)
    requires InPlace(cfg, s.phase, e)
  {
    match e
    case Seeded(_) => cfg.prodSource
    case Restored => cfg.r2 && exists k :: NewestBackup(s.bucket, k)
    case Fetched(_) => cfg.prodSource
    case Checked => s.db.Some? && s.db.value != []
    case Snapped => s.db.Some?
    case Accepted(x) => !ShrinkGuard.Refuses(s.files, x.meta.counts, x.forced)
    case Refused(x) => ShrinkGuard.Refuses(s.files, x.meta.counts, x.forced)
    case WroteReleases(file) => file.Some? ==> file.value.ReleasesFile? || file.value.Torn?
    case Validated => Validate.ValidDir(s.files)
    case Connected => cfg.r2
    case Put(_) => PutArtifact(s.phase.stage) in s.files && KeyDefined(s.phase.stage, s.phase.job)
    case Skipped => PutArtifact(s.phase.stage) !in s.files
    case Stamped(now) => s.clock <= now && FourDigitYear(now)
    case BackedUp(now, _) => s.clock <= now && FourDigitYear(now)
    case BackupsShed(gone) =>
      gone != {} ==> cfg.backupKeep >= 0 && gone <= Retention.Surplus(s.bucket.Keys, cfg.backupKeep)
    case ArchivesShed(gone) => gone <= Under(s.bucket.Keys, ARCHIVE)
    case _ => true
  }

  ghost predicate Enabled(cfg: Config, s: State, e: Event) {
    InPlace(cfg, s.phase, e) && Possible(cfg, s, e)
  }

  ghost predicate NewestBackup(bucket: Objects, k: string) {
    Retention.IsGreatest(k, Backups(bucket)) && k in bucket && bucket[k].BackupFile?
  }

  function FilesAfter(files: Files, phase: Phase, e: Event): Files {
    match e
    case WipeOut => map[]
    case Wrote => if phase.At? then files[WriteArtifact(phase.stage) := WriteContent(phase.stage, phase.job)] else files
    case Tore(bytes) => if phase.At? then files[WriteArtifact(phase.stage) := Torn(bytes)] else files
    case WroteReleases(file) => if file.Some? then files[Releases := file.value] else files
    case RemovedDelta(removed) => if removed then files - {Delta} else files
    case _ => files
  }

  ghost function DbAfter(cfg: Config, s: State, e: Event): Option<Snapshot>
    requires Enabled(cfg, s, e)
  {
    match e
    case WipeDb => None
    case Seeded(db) => Some(db)
    case Fetched(db) => Some(db)
    case Synced(db, _) => Some(db)
    case Restored => var k :| NewestBackup(s.bucket, k); Some(s.bucket[k].db)
    case _ => s.db
  }

  /** The snapshot file is created with the snapshot and removed by the cleanup. */
  function TempsAfter(temps: nat, e: Event): nat {
    match e
    case Snapped => temps + 1
    case CleanedUp => if temps > 0 then temps - 1 else 0
    case _ => temps
  }

  ghost function BucketAfter(cfg: Config, s: State, e: Event): Objects
    requires Enabled(cfg, s, e)
  {
    match e
    case Put(_) => s.bucket[PutKey(cfg, s.phase.stage, s.phase.job) := s.files[PutArtifact(s.phase.stage)]]
    case DroppedDelta(removed) => if removed then s.bucket - {LiveKey(cfg.prefix, Delta)} else s.bucket
    case BackedUp(now, _) => s.bucket[BackupKey(now) := BackupFile(s.phase.job.snap)]
    case BackupsShed(gone) => s.bucket - gone
    case ArchivesShed(gone) => s.bucket - gone
    case _ => s.bucket
  }

  function ClockAfter(clock: nat, e: Event): nat {
    match e
    case Stamped(now) => now
    case BackedUp(now, _) => now
    case _ => clock
  }

  /** Returning with an error: at once before the snapshot, else by way of Unwind. */
  function Aborted(stage: Stage, job: Job): Phase {
    if Rank(stage) <= Rank(TakeSnapshot) then Idle else At(Unwind, job.(ok := false))
  }

  /** Going on to a stage; reaching Unwind this way is success. */
  function GoOn(stage: Stage, job: Job): Phase {
    At(stage, if stage == Unwind then job.(ok := true) else job)
  }

  function Warned(job: Job): Job {
    job.(warnings := job.warnings + 1)
  }

  function PhaseAfter(cfg: Config, s: State, e: Event): Phase {
    if BetweenRuns(e) || s.phase.Idle? then
      if e.Begin? then At(if cfg.fetchProd then FetchDb else CheckDb, NEW_JOB) else s.phase
    else
      var stage, job := s.phase.stage, s.phase.job;
      match e
      case Fetched(_) => At(CheckDb, job)
      case Checked => At(if cfg.sync then SyncDb else TakeSnapshot, job)
      case Synced(_, ok) => At(TakeSnapshot, if ok then job else Warned(job))
      case Snapped => At(GuardExport, job.(snap := if s.db.Some? then s.db.value else []))
      case Accepted(x) => At(WriteGz, job.(x := x))
      case Refused(_) => Aborted(stage, job)
      case Wrote => At(Following(cfg, stage), job)
      case Tore(_) => Aborted(stage, job)
      case WroteReleases(_) => At(RemoveDelta, job)
      case RemovedDelta(_) => At(ReadPrevious, job)
      case ReadIndex(fetched, url) =>
        var previous := PreviousVersion(cfg.prefix, s.files, s.bucket, fetched);
        At(WriteIndex, job.(index := Advance(previous, job.x.meta.fullSha, url)))
      case Validated => At(Connect, job)
      case Connected => At(PutGz, job)
      case Put(lost) => if lost then Aborted(stage, job) else GoOn(Following(cfg, stage), job)
      case Skipped => GoOn(Following(cfg, stage), job)
      case DroppedDelta(_) => At(PutIndex, job)
      case Stamped(now) => At(ArchiveIndex, job.(archivedAt := now))
      case BackedUp(_, lost) => if lost then GoOn(AfterBackup(cfg), Warned(job)) else At(ShedBackups, job)
      case BackupFailed => GoOn(AfterBackup(cfg), Warned(job))
      case BackupsShed(_) => GoOn(AfterBackup(cfg), job)
      case ArchivesDone => GoOn(Unwind, job)
      case Fail => Aborted(stage, job)
      case CleanedUp => Idle
      case Crash => Idle
      case _ => s.phase
  }

  function PastAfter(past: History, phase: Phase, e: Event): History {
    if e.Begin? then past.(run := past.run + 1)
    else if e.WipeOut? then past.(chain := [])
    else if phase.Idle? then past
    else
      var stage, job := phase.stage, phase.job;
      match e
      case Wrote =>
        if !stage.WriteMeta? then past
        else past.(chain := (if job.x.forced then [] else past.chain) + [job.x.meta.counts])
      case Tore(_) => if stage.WriteMeta? then past.(chain := []) else past
      case Put(_) =>
        if stage.PutGz? then past.(bundleRun := past.run, dirty := true)
        else if stage.PutIndex? then
          past.(indexRun := past.run, dirty := false, published := past.published + [job.index.version])
        else past
      case Synced(_, ok) => if ok then past else past.(warned := past.warned + 1)
      case BackedUp(now, lost) =>
        past.(lastBackup := Some(Stored(now, job.snap)), warned := past.warned + if lost then 1 else 0)
      case BackupFailed => past.(warned := past.warned + 1)
      case Crash => past.(leaked := past.leaked + if Rank(stage) > Rank(TakeSnapshot) then 1 else 0)
      case _ => past
  }

  ghost function Apply(cfg: Config, s: State, e: Event): State
    requires Enabled(cfg, s, e)
  {
    State(
      FilesAfter(s.files, s.phase, e), DbAfter(cfg, s, e), TempsAfter(s.temps, e), BucketAfter(cfg, s, e),
      ClockAfter(s.clock, e), PhaseAfter(cfg, s, e), PastAfter(s.past, s.phase, e))
  }

  // ---- runs ---------------------------------------------------------------

  /** A sync or a backup that was reported as failed. */
  predicate IsWarning(e: Event) {
    e == BackupFailed || (e.Synced? && !e.ok) || (e.BackedUp? && e.lost)
  }

  /** The number of warnings in a trace. */
  function Warnings(trace: seq<Event>): nat {
    if trace == [] then 0 else (if IsWarning(trace[0]) then 1 else 0) + Warnings(trace[1..])
  }

  lemma {:induction false} WarningsConcat(a: seq<Event>, b: seq<Event>)
    ensures Warnings(a + b) == Warnings(a) + Warnings(b)
  {
    if a == [] {
      assert a + b == b;
    } else {
      assert (a + b)[1..] == a[1..] + b;
      WarningsConcat(a[1..], b);
    }
  }

  lemma WarnedOnce(cfg: Config, s: State, e: Event)
    requires InPlace(cfg, s.phase, e)
    ensures PastAfter(s.past, s.phase, e).warned == s.past.warned + if IsWarning(e) then 1 else 0
  {
  }

  lemma {:induction false} WarnedAlong(cfg: Config, s: State, trace: seq<Event>)
    requires Legal(cfg, s, trace)
    ensures Exec(cfg, s, trace).past.warned == s.past.warned + Warnings(trace)
    decreases |trace|
  {
    if trace != [] {
      WarnedOnce(cfg, s, trace[0]);
      WarnedAlong(cfg, Apply(cfg, s, trace[0]), trace[1..]);
    }
  }

  ghost predicate Legal(cfg: Config, s: State, trace: seq<Event>)
    decreases |trace|
  {
    trace != [] ==> Enabled(cfg, s, trace[0]) && Legal(cfg, Apply(cfg, s, trace[0]), trace[1..])
  }

  ghost function Exec(cfg: Config, s: State, trace: seq<Event>): State
    requires Legal(cfg, s, trace)
    decreases |trace|
  {
    if trace == [] then s else Exec(cfg, Apply(cfg, s, trace[0]), trace[1..])
  }

  lemma {:induction false} LegalConcat(cfg: Config, s: State, a: seq<Event>, b: seq<Event>)
    ensures Legal(cfg, s, a + b) <==> Legal(cfg, s, a) && Legal(cfg, Exec(cfg, s, a), b)
    ensures Legal(cfg, s, a + b) ==> Exec(cfg, s, a + b) == Exec(cfg, Exec(cfg, s, a), b)
    decreases |a|
  {
    if a == [] {
      assert a + b == b;
    } else {
      assert (a + b)[1..] == a[1..] + b;
      if Enabled(cfg, s, a[0]) {
        LegalConcat(cfg, Apply(cfg, s, a[0]), a[1..], b);
      }
    }
  }

  lemma LegalSnoc(cfg: Config, s: State, a: seq<Event>, e: Event)
    requires Legal(cfg, s, a)
    ensures Legal(cfg, s, a + [e]) <==> Enabled(cfg, Exec(cfg, s, a), e)
    ensures Enabled(cfg, Exec(cfg, s, a), e) ==> Exec(cfg, s, a + [e]) == Apply(cfg, Exec(cfg, s, a), e)
  {
    LegalConcat(cfg, s, a, [e]);
    var t := Exec(cfg, s, a);
    if Enabled(cfg, t, e) {
      assert Legal(cfg, Apply(cfg, t, e), []);
      assert [e][1..] == [];
      assert Legal(cfg, t, [e]);
    }
  }
}
