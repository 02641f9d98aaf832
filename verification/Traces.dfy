/** The order of the steps of a run, and what failures of optional steps change. */
module Traces {
  import opened Store
  import opened Text
  import opened Names
  import opened Buckets
  import opened Protocol
  import opened Safety
  import opened Runs
  import Retention
  import Validate

  // ---- which steps a run has completed ------------------------------------

  /** The event is the success of its stage. */
  predicate Success(e: Event) {
    match e
    case Snapped => true
    case Accepted(_) => true
    case Wrote => true
    case Validated => true
    case Connected => true
    case Put(lost) => !lost
    case BackedUp(_, lost) => !lost
    case _ => false
  }

  /** The stages completed by the present run, after one more event. */
  function DoneAfter(done: set<Stage>, phase: Phase, e: Event): set<Stage> {
    if e.Begin? then {}
    else if phase.At? && Success(e) then done + {phase.stage}
    else done
  }

  /** The stages completed by the last run that began in the trace. */
  ghost function Completed(cfg: Config, s: State, trace: seq<Event>, done: set<Stage>): set<Stage>
    requires Legal(cfg, s, trace)
    decreases |trace|
  {
    if trace == [] then done
    else Completed(cfg, Apply(cfg, s, trace[0]), trace[1..], DoneAfter(done, s.phase, trace[0]))
  }

  /** Here the trace holds the success of stage m, spelled out. */
  ghost predicate SucceedsAt(cfg: Config, s: State, trace: seq<Event>, i: nat, m: Stage)
    requires i < |trace|
  {
    && Legal(cfg, s, trace[..i]) && Exec(cfg, s, trace[..i]).phase.At? && Exec(cfg, s, trace[..i]).phase.stage == m
    && (|| trace[i] == Snapped || trace[i].Accepted? || trace[i] == Wrote || trace[i] == Validated
        || trace[i] == Connected || trace[i] == Put(false) || (trace[i].BackedUp? && !trace[i].lost))
  }

  /** A completed stage is one whose successful event the trace holds, with no later
      beginning of a run: a snapshot, an accepted export, a file written whole, a passed
      validation, a client made, or a put reported as done. */
  lemma {:induction false} CompletedMeans(cfg: Config, s: State, trace: seq<Event>, done: set<Stage>, m: Stage)
      returns (i: nat)
    requires Legal(cfg, s, trace) && m in Completed(cfg, s, trace, done)
    ensures i <= |trace| && forall k :: (if i == |trace| then 0 else i) <= k < |trace| ==> !trace[k].Begin?
    ensures if i == |trace| then m in done else SucceedsAt(cfg, s, trace, i, m)
    decreases |trace|
  {
    if trace == [] {
      i := 0;
    } else {
      var next, rest := Apply(cfg, s, trace[0]), trace[1..];
      var after := DoneAfter(done, s.phase, trace[0]);
      var j := CompletedMeans(cfg, next, rest, after, m);
      if j < |rest| {
        i := j + 1;
        SucceedsLater(cfg, s, trace, j, m);
      } else if m in done && !trace[0].Begin? {
        i := |trace|;
      } else {
        i := 0;
        SucceedsNow(cfg, s, trace, done, m);
      }
    }
  }

  lemma SucceedsLater(cfg: Config, s: State, trace: seq<Event>, j: nat, m: Stage)
    requires trace != [] && Enabled(cfg, s, trace[0]) && j + 1 < |trace|
    requires SucceedsAt(cfg, Apply(cfg, s, trace[0]), trace[1..], j, m)
    ensures SucceedsAt(cfg, s, trace, j + 1, m)
  {
    PrefixLeads(cfg, s, trace, j);
  }

  lemma SucceedsNow(cfg: Config, s: State, trace: seq<Event>, done: set<Stage>, m: Stage)
    requires trace != [] && m in DoneAfter(done, s.phase, trace[0]) && (trace[0].Begin? || m !in done)
    ensures SucceedsAt(cfg, s, trace, 0, m) && !trace[0].Begin?
  {
    assert trace[..0] == [];
  }

  lemma PrefixLeads(cfg: Config, s: State, trace: seq<Event>, j: nat)
    requires trace != [] && Enabled(cfg, s, trace[0]) && j < |trace|
    requires Legal(cfg, Apply(cfg, s, trace[0]), trace[1..][..j])
    ensures Legal(cfg, s, trace[..j + 1])
    ensures Exec(cfg, s, trace[..j + 1]) == Exec(cfg, Apply(cfg, s, trace[0]), trace[1..][..j])
  {
    assert trace[..j + 1][1..] == trace[1..][..j];
  }

  /** The steps that a run cannot leave out: everything up to a complete upload. */
  const REQUIRED: set<Stage> := {
    TakeSnapshot, GuardExport, WriteGz, WriteMeta, WriteIndex, CheckDir, Connect,
    PutGz, PutMeta, PutIndex, ArchiveIndex, ArchiveGz
  }

  /** A run that has come to a stage has completed all required stages before it. */
  predicate InOrder(phase: Phase, done: set<Stage>) {
    phase.At? && phase.stage != Unwind ==>
      && (forall m :: m in REQUIRED && Rank(m) < Rank(phase.stage) ==> m in done)
      && (phase.stage == ShedBackups ==> PutBackup in done)
  }

  lemma OrderStep(cfg: Config, s: State, e: Event, done: set<Stage>)
    requires InPlace(cfg, s.phase, e) && InOrder(s.phase, done)
    requires e.Skipped? ==> s.phase.stage !in REQUIRED
    ensures InOrder(PhaseAfter(cfg, s, e), DoneAfter(done, s.phase, e))
  {
    if !BetweenRuns(e) {
      var after := PhaseAfter(cfg, s, e);
      OneStage(cfg, s, e);
    }
  }

  /** Between a stage and the one an event moves on to, nothing required is passed
      over, except the stage itself, whose success the event is. */
  lemma OneStage(cfg: Config, s: State, e: Event)
    requires InPlace(cfg, s.phase, e) && !BetweenRuns(e)
    requires e.Skipped? ==> s.phase.stage !in REQUIRED
    ensures
      var before, after := s.phase.stage, PhaseAfter(cfg, s, e);
      after.At? && after.stage != Unwind ==>
        && (forall m :: m in REQUIRED && Rank(m) < Rank(after.stage) ==>
              Rank(m) < Rank(before) || (m == before && Success(e)))
        && (after.stage == ShedBackups ==> before == PutBackup && Success(e))
        && before != Unwind
  {
    BackupStage(cfg, s, e);
    RequiredStage(cfg, s, e);
    NonePassedOver(cfg, s, e);
    RankInjective();
  }

  lemma RankInjective()
    ensures forall a: Stage, b: Stage :: Rank(a) == Rank(b) ==> a == b
  {
  }

  lemma RequiredStage(cfg: Config, s: State, e: Event)
    requires InPlace(cfg, s.phase, e) && !BetweenRuns(e)
    requires e.Skipped? ==> s.phase.stage !in REQUIRED
    ensures
      var before, after := s.phase.stage, PhaseAfter(cfg, s, e);
      after.At? && after.stage != Unwind && before in REQUIRED && Rank(before) < Rank(after.stage) ==> Success(e)
  {
  }

  lemma NonePassedOver(cfg: Config, s: State, e: Event)
    requires InPlace(cfg, s.phase, e) && !BetweenRuns(e)
    ensures
      var before, after := s.phase.stage, PhaseAfter(cfg, s, e);
      after.At? && after.stage != Unwind ==> NoneBetween(before, after.stage)
  {
    var before, after := s.phase.stage, PhaseAfter(cfg, s, e);
    StageMoves(cfg, s, e);
    if after.At? && after.stage != Unwind {
      MovePassesNothing(cfg, before, after.stage);
    }
  }

  /** The stages an event can lead to from its own, Unwind aside. */
  predicate Moves(cfg: Config, before: Stage, after: Stage) {
    || after == before
    || Rank(after) == Rank(before) + 1
    || (before == CheckDb && after == TakeSnapshot)
    || (before in {ArchiveGz, PutBackup} && Rank(before) < Rank(after) <= Rank(ShedArchives))
  }

  lemma StageMoves(cfg: Config, s: State, e: Event)
    requires InPlace(cfg, s.phase, e) && !BetweenRuns(e)
    ensures
      var before, after := s.phase.stage, PhaseAfter(cfg, s, e);
      after.At? && after.stage != Unwind ==> Moves(cfg, before, after.stage)
  {
  }

  lemma MovePassesNothing(cfg: Config, before: Stage, after: Stage)
    requires Moves(cfg, before, after)
    ensures NoneBetween(before, after)
  {
    OptionalStages();
    forall m | m in REQUIRED && Rank(before) < Rank(m) ensures Rank(after) <= Rank(m) {
      NoRequiredOvertaken(cfg, before, after, m);
    }
  }

  lemma OptionalStages()
    ensures SyncDb !in REQUIRED && PutBackup !in REQUIRED && ShedBackups !in REQUIRED
  {
  }

  lemma NoRequiredOvertaken(cfg: Config, before: Stage, after: Stage, m: Stage)
    requires Moves(cfg, before, after) && m !in {SyncDb, PutBackup, ShedBackups}
    requires Rank(before) < Rank(m)
    ensures Rank(after) <= Rank(m)
  {
  }

  predicate NoneBetween(before: Stage, after: Stage) {
    forall m :: m in REQUIRED && Rank(before) < Rank(m) ==> Rank(after) <= Rank(m)
  }

  lemma BackupStage(cfg: Config, s: State, e: Event)
    requires InPlace(cfg, s.phase, e) && !BetweenRuns(e)
    ensures
      var before, after := s.phase.stage, PhaseAfter(cfg, s, e);
      after.At? && after.stage != Unwind ==>
        (after.stage == ShedBackups ==> before == PutBackup && Success(e)) && before != Unwind
  {
  }

  /** An artifact that the export has written is not skipped by the upload. */
  lemma NothingSkipped(cfg: Config, s: State, e: Event)
    requires Enabled(cfg, s, e) && FilesInv(s.files, s.phase)
    ensures !e.Skipped?
  {
  }

  lemma {:induction false} OrderAlong(cfg: Config, s: State, trace: seq<Event>, done: set<Stage>)
    requires SafePrefix(cfg.prefix) && Legal(cfg, s, trace) && Inv(cfg, s) && InOrder(s.phase, done)
    ensures InOrder(Exec(cfg, s, trace).phase, Completed(cfg, s, trace, done))
    decreases |trace|
  {
    if trace != [] {
      NothingSkipped(cfg, s, trace[0]);
      OrderStep(cfg, s, trace[0], done);
      InvStep(cfg, s, trace[0]);
      OrderAlong(cfg, Apply(cfg, s, trace[0]), trace[1..], DoneAfter(done, s.phase, trace[0]));
    }
  }

  /** Pipeline order: in every trace, the index put comes after the snapshot, an
      accepted export, its three files written whole, validation and the bundle and
      meta puts of the same run; archives are pruned only after the complete upload
      of the same run; backups are pruned only after its successful backup put. */
  lemma PipelineOrder(cfg: Config, s0: State, trace: seq<Event>, e: Event)
    requires SafePrefix(cfg.prefix) && Fresh(s0) && Legal(cfg, s0, trace + [e])
    ensures Legal(cfg, s0, trace)
    ensures
      var s, done := Exec(cfg, s0, trace), Completed(cfg, s0, trace, {});
      && (PutsLive(s, e, Index) ==>
            {TakeSnapshot, GuardExport, WriteGz, WriteMeta, WriteIndex, CheckDir, PutGz, PutMeta} <= done)
      && (e.ArchivesShed? ==> REQUIRED <= done)
      && (e.BackupsShed? ==> REQUIRED <= done && PutBackup in done)
  {
    LegalConcat(cfg, s0, trace, [e]);
    FreshInv(cfg, s0);
    OrderAlong(cfg, s0, trace, {});
    LegalSnoc(cfg, s0, trace, e);
    OrderedEvent(cfg, Exec(cfg, s0, trace).phase, e, Completed(cfg, s0, trace, {}));
  }

  lemma OrderedEvent(cfg: Config, phase: Phase, e: Event, done: set<Stage>)
    requires InPlace(cfg, phase, e) && InOrder(phase, done)
    ensures e.Put? && phase.stage == PutIndex ==>
              {TakeSnapshot, GuardExport, WriteGz, WriteMeta, WriteIndex, CheckDir, PutGz, PutMeta} <= done
    ensures e.ArchivesShed? ==> REQUIRED <= done
    ensures e.BackupsShed? ==> REQUIRED <= done && PutBackup in done
  {
  }

  // ---- what is there when a step is taken ---------------------------------

  /** A run that has come past this put has made its own file live. */
  predicate IsUp(cfg: Config, s: State, put: Stage, a: Artifact) {
    Past(s.phase, put) ==> a in s.files && Live(cfg, s.bucket, a) == Some(s.files[a])
  }

  predicate AllUp(cfg: Config, s: State) {
    IsUp(cfg, s, PutGz, Gz) && IsUp(cfg, s, PutMeta, Meta) && IsUp(cfg, s, PutIndex, Index)
  }

  lemma UpFrom(cfg: Config, s: State, e: Event, put: Stage)
    requires Enabled(cfg, s, e) && !e.Skipped? && put in {PutGz, PutMeta, PutIndex}
    requires Past(PhaseAfter(cfg, s, e), put)
    ensures s.phase.At? && (Past(s.phase, put) || (s.phase.stage == put && e.Put?))
    ensures Past(PhaseAfter(cfg, s, e), CheckDir)
  {
  }

  lemma UpStep(cfg: Config, s: State, e: Event, put: Stage, a: Artifact)
    requires SafePrefix(cfg.prefix) && Enabled(cfg, s, e) && FilesInv(s.files, s.phase) && IsUp(cfg, s, put, a)
    requires (put == PutGz && a == Gz) || (put == PutMeta && a == Meta) || (put == PutIndex && a == Index)
    ensures IsUp(cfg, Apply(cfg, s, e), put, a)
  {
    NothingSkipped(cfg, s, e);
    if Past(PhaseAfter(cfg, s, e), put) {
      UpFrom(cfg, s, e, put);
      PastCheck(cfg, s, e);
      LiveFrame(cfg, s, e, a);
    }
  }

  lemma {:induction false} UpAlong(cfg: Config, s: State, trace: seq<Event>)
    requires SafePrefix(cfg.prefix) && Legal(cfg, s, trace) && Inv(cfg, s) && AllUp(cfg, s)
    ensures AllUp(cfg, Exec(cfg, s, trace)) && Inv(cfg, Exec(cfg, s, trace))
    decreases |trace|
  {
    if trace != [] {
      UpStep(cfg, s, trace[0], PutGz, Gz);
      UpStep(cfg, s, trace[0], PutMeta, Meta);
      UpStep(cfg, s, trace[0], PutIndex, Index);
      InvStep(cfg, s, trace[0]);
      UpAlong(cfg, Apply(cfg, s, trace[0]), trace[1..]);
    }
  }

  /** The same order, seen in the stores.  Whenever an index is put, the files at hand
      are whole, the run's own and valid, and its bundle and meta are live.  Whenever a
      backup is put or backups or archives are pruned, its index is live as well. */
  lemma PublishOrder(cfg: Config, s0: State, trace: seq<Event>, s: State, e: Event)
    requires SafePrefix(cfg.prefix) && Fresh(s0) && Legal(cfg, s0, trace) && s == Exec(cfg, s0, trace)
    requires Enabled(cfg, s, e)
    ensures PutsLive(s, e, Index) ==>
              && Validate.ValidDir(s.files)
              && s.files[Gz := BundleFile(s.phase.job.x.bundle)] == s.files
              && s.files[Meta := MetaFile(s.phase.job.x.meta)] == s.files
              && s.files[Index := IndexFile(s.phase.job.index)] == s.files
              && Live(cfg, s.bucket, Gz) == Some(BundleFile(s.phase.job.x.bundle))
              && Live(cfg, s.bucket, Meta) == Some(MetaFile(s.phase.job.x.meta))
    ensures e.BackedUp? || e.BackupsShed? || e.ArchivesShed? ==>
              && Live(cfg, s.bucket, Gz) == Some(BundleFile(s.phase.job.x.bundle))
              && Live(cfg, s.bucket, Meta) == Some(MetaFile(s.phase.job.x.meta))
              && Live(cfg, s.bucket, Index) == Some(IndexFile(s.phase.job.index))
  {
    FreshInv(cfg, s0);
    UpAlong(cfg, s0, trace);
    if PutsLive(s, e, Index) || e.BackedUp? || e.BackupsShed? || e.ArchivesShed? {
      OwnFiles(cfg, s, e);
    }
  }

  lemma OwnFiles(cfg: Config, s: State, e: Event)
    requires Inv(cfg, s) && AllUp(cfg, s) && Enabled(cfg, s, e)
    requires PutsLive(s, e, Index) || e.BackedUp? || e.BackupsShed? || e.ArchivesShed?
    ensures
      var job := s.phase.job;
      && Validate.ValidDir(s.files)
      && Gz in s.files && s.files[Gz] == BundleFile(job.x.bundle)
      && Meta in s.files && s.files[Meta] == MetaFile(job.x.meta)
      && Index in s.files && s.files[Index] == IndexFile(job.index)
      && Live(cfg, s.bucket, Gz) == Some(s.files[Gz]) && Live(cfg, s.bucket, Meta) == Some(s.files[Meta])
      && (!PutsLive(s, e, Index) ==> Live(cfg, s.bucket, Index) == Some(s.files[Index]))
  {
    LateStage(cfg, s, e);
    OwnFilesPast(cfg, s);
  }

  lemma LateStage(cfg: Config, s: State, e: Event)
    requires InPlace(cfg, s.phase, e)
    requires PutsLive(s, e, Index) || e.BackedUp? || e.BackupsShed? || e.ArchivesShed?
    ensures Past(s.phase, PutMeta) && (!PutsLive(s, e, Index) ==> Past(s.phase, PutIndex))
  {
  }

  lemma OwnFilesPast(cfg: Config, s: State)
    requires FilesInv(s.files, s.phase) && DirInv(s.files, s.phase) && AllUp(cfg, s) && Past(s.phase, PutMeta)
    ensures
      var job := s.phase.job;
      && Validate.ValidDir(s.files)
      && Gz in s.files && s.files[Gz] == BundleFile(job.x.bundle)
      && Meta in s.files && s.files[Meta] == MetaFile(job.x.meta)
      && Index in s.files && s.files[Index] == IndexFile(job.index)
      && Live(cfg, s.bucket, Gz) == Some(s.files[Gz]) && Live(cfg, s.bucket, Meta) == Some(s.files[Meta])
      && (Past(s.phase, PutIndex) ==> Live(cfg, s.bucket, Index) == Some(s.files[Index]))
  {
  }

  // ---- optional steps -----------------------------------------------------

  /** These steps cannot end a run: whatever happens, short of death, it goes on to a
      later step or is on its way out with success. */
  lemma OptionalStepsGoOn(cfg: Config, s: State, e: Event)
    requires Enabled(cfg, s, e) && !e.Crash? && s.phase.At?
    requires s.phase.stage in {SyncDb, WriteReleases, RemoveDelta, DropDelta, NameArchive, PutBackup}
    ensures
      var after := PhaseAfter(cfg, s, e);
      && after.At? && Rank(after.stage) > Rank(s.phase.stage)
      && (after.stage == Unwind ==> after.job.ok)
  {
  }

  function WithWarnings(phase: Phase, n: nat): Phase {
    if phase.Idle? then phase else At(phase.stage, phase.job.(warnings := n))
  }

  /** The states differ at most in the number of warnings of the present run. */
  predicate SameButWarnings(s: State, t: State) {
    && s.files == t.files && s.db == t.db && s.temps == t.temps && s.bucket == t.bucket && s.clock == t.clock
    && s.past.(warned := 0) == t.past.(warned := 0) && WithWarnings(s.phase, 0) == WithWarnings(t.phase, 0)
  }

  lemma SameWarningsEnabled(cfg: Config, s: State, t: State, e: Event)
    requires SameButWarnings(s, t)
    ensures Enabled(cfg, s, e) <==> Enabled(cfg, t, e)
  {
  }

  lemma SameWarningsPhase(cfg: Config, s: State, t: State, e: Event)
    requires SameButWarnings(s, t) && InPlace(cfg, s.phase, e) && InPlace(cfg, t.phase, e)
    ensures WithWarnings(PhaseAfter(cfg, s, e), 0) == WithWarnings(PhaseAfter(cfg, t, e), 0)
    ensures FilesAfter(s.files, s.phase, e) == FilesAfter(t.files, t.phase, e)
    ensures PastAfter(s.past, s.phase, e).(warned := 0) == PastAfter(t.past, t.phase, e).(warned := 0)
  {
    SameWarningsNext(cfg, s, t, e);
    SameWarningsPast(s.past, s.phase, t.past, t.phase, e);
  }

  lemma SameWarningsNext(cfg: Config, s: State, t: State, e: Event)
    requires SameButWarnings(s, t)
    ensures WithWarnings(PhaseAfter(cfg, s, e), 0) == WithWarnings(PhaseAfter(cfg, t, e), 0)
  {
  }

  lemma SameWarningsPast(p: History, a: Phase, q: History, b: Phase, e: Event)
    requires p.(warned := 0) == q.(warned := 0) && WithWarnings(a, 0) == WithWarnings(b, 0)
    ensures PastAfter(p, a, e).(warned := 0) == PastAfter(q, b, e).(warned := 0)
  {
  }

  lemma SameWarningsStores(cfg: Config, s: State, t: State, e: Event)
    requires SameButWarnings(s, t) && Enabled(cfg, s, e) && Enabled(cfg, t, e)
    ensures BucketAfter(cfg, s, e) == BucketAfter(cfg, t, e) && DbAfter(cfg, s, e) == DbAfter(cfg, t, e)
  {
    forall k, l | NewestBackup(s.bucket, k) && NewestBackup(s.bucket, l) ensures k == l {
      Retention.GreatestUnique(k, l, Backups(s.bucket));
    }
  }

  lemma {:induction false} SameWarningsAlong(cfg: Config, s: State, t: State, trace: seq<Event>)
    requires SameButWarnings(s, t)
    ensures Legal(cfg, s, trace) <==> Legal(cfg, t, trace)
    ensures Legal(cfg, s, trace) ==> SameButWarnings(Exec(cfg, s, trace), Exec(cfg, t, trace))
    decreases |trace|
  {
    if trace != [] {
      SameWarningsEnabled(cfg, s, t, trace[0]);
      if Enabled(cfg, s, trace[0]) {
        SameWarningsPhase(cfg, s, t, trace[0]);
        SameWarningsStores(cfg, s, t, trace[0]);
        SameWarningsAlong(cfg, Apply(cfg, s, trace[0]), Apply(cfg, t, trace[0]), trace[1..]);
      }
    }
  }

  /** A failed sync does not block a publish: whatever can follow a successful sync
      can follow a failed one that left the same database, and leads to the same
      stores and history; the failed one has added a warning. */
  lemma SyncFailureIsHarmless(cfg: Config, s: State, db: Snapshot, rest: seq<Event>)
    requires Enabled(cfg, s, Synced(db, true))
    ensures Enabled(cfg, s, Synced(db, false))
    ensures
      var worked, failed := Apply(cfg, s, Synced(db, true)), Apply(cfg, s, Synced(db, false));
      && failed.phase.job.warnings == worked.phase.job.warnings + 1
      && (Legal(cfg, worked, rest) <==> Legal(cfg, failed, rest))
      && (Legal(cfg, worked, rest) ==> SameButWarnings(Exec(cfg, worked, rest), Exec(cfg, failed, rest)))
  {
    var worked, failed := Apply(cfg, s, Synced(db, true)), Apply(cfg, s, Synced(db, false));
    SameWarningsAlong(cfg, worked, failed, rest);
  }

  ghost predicate SameOutsideBackups(a: Objects, b: Objects) {
    forall k :: !HasPrefix(k, BACKUPS) ==> (k in a <==> k in b) && (k in a ==> a[k] == b[k])
  }

  /** The states differ at most in the backups, the clock and the number of warnings
      of the present run, which is past its backup step. */
  ghost predicate SameButBackup(s: State, t: State) {
    && s.files == t.files && s.db == t.db && s.temps == t.temps
    && SameOutsideBackups(s.bucket, t.bucket)
    && s.past.(lastBackup := None, warned := 0) == t.past.(lastBackup := None, warned := 0)
    && WithWarnings(s.phase, 0) == WithWarnings(t.phase, 0)
    && (s.phase.At? ==> s.phase.stage in {ShedArchives, Unwind})
  }

  lemma SameArchives(s: State, t: State)
    requires SameButBackup(s, t)
    ensures Under(s.bucket.Keys, ARCHIVE) == Under(t.bucket.Keys, ARCHIVE)
  {
    forall k | HasPrefix(k, ARCHIVE) ensures k in s.bucket <==> k in t.bucket {
      ArchiveIsNotBackup(k);
    }
  }

  lemma SameBackupEnabled(cfg: Config, s: State, t: State, e: Event)
    requires SameButBackup(s, t) && !BetweenRuns(e)
    ensures Enabled(cfg, s, e) <==> Enabled(cfg, t, e)
  {
    SameArchives(s, t);
  }

  lemma SameBackupApply(cfg: Config, s: State, t: State, e: Event)
    requires SameButBackup(s, t) && !BetweenRuns(e) && Enabled(cfg, s, e) && Enabled(cfg, t, e)
    ensures SameButBackup(Apply(cfg, s, e), Apply(cfg, t, e))
  {
    SameBackupPhase(cfg, s, t, e);
    SameBackupBucket(cfg, s, t, e);
  }

  lemma SameBackupPhase(cfg: Config, s: State, t: State, e: Event)
    requires WithWarnings(s.phase, 0) == WithWarnings(t.phase, 0) && !BetweenRuns(e)
    requires s.phase.At? && s.phase.stage in {ShedArchives, Unwind}
    requires InPlace(cfg, s.phase, e) && InPlace(cfg, t.phase, e)
    ensures e.ArchivesShed? || e.ArchivesDone? || e.Fail? || e.CleanedUp? || e.Crash?
    ensures
      var after := PhaseAfter(cfg, s, e);
      && WithWarnings(after, 0) == WithWarnings(PhaseAfter(cfg, t, e), 0)
      && (after.At? ==> after.stage in {ShedArchives, Unwind})
    ensures
      s.past.(lastBackup := None, warned := 0) == t.past.(lastBackup := None, warned := 0) ==>
        PastAfter(s.past, s.phase, e).(lastBackup := None, warned := 0) ==
        PastAfter(t.past, t.phase, e).(lastBackup := None, warned := 0)
  {
  }

  lemma SameBackupBucket(cfg: Config, s: State, t: State, e: Event)
    requires SameOutsideBackups(s.bucket, t.bucket) && Enabled(cfg, s, e) && Enabled(cfg, t, e)
    requires e.ArchivesShed? || e.ArchivesDone? || e.Fail? || e.CleanedUp? || e.Crash?
    ensures SameOutsideBackups(BucketAfter(cfg, s, e), BucketAfter(cfg, t, e))
  {
  }

  lemma {:induction false} SameBackupAlong(cfg: Config, s: State, t: State, trace: seq<Event>)
    requires SameButBackup(s, t) && WithinRun(trace)
    ensures Legal(cfg, s, trace) <==> Legal(cfg, t, trace)
    ensures Legal(cfg, s, trace) ==> SameButBackup(Exec(cfg, s, trace), Exec(cfg, t, trace))
    decreases |trace|
  {
    if trace != [] {
      assert trace[0] in trace;
      assert forall e :: e in trace[1..] ==> e in trace;
      SameBackupEnabled(cfg, s, t, trace[0]);
      if Enabled(cfg, s, trace[0]) {
        SameBackupApply(cfg, s, t, trace[0]);
        SameBackupAlong(cfg, Apply(cfg, s, trace[0]), Apply(cfg, t, trace[0]), trace[1..]);
      }
    }
  }

  predicate BackupFails(e: Event) {
    e.BackupFailed? || (e.BackedUp? && e.lost)
  }

  /** A failed backup does not stop a run either: the rest of the run can be exactly
      what it can be after a successful backup and pruning, with the same files, live
      objects, archives and versions; the failed one has added a warning. */
  lemma BackupFailureIsHarmless(
    cfg: Config, s: State, now: nat, gone: set<string>, failure: Event, rest: seq<Event>)
    requires Enabled(cfg, s, BackedUp(now, false)) && Enabled(cfg, s, failure) && BackupFails(failure)
    requires Enabled(cfg, Apply(cfg, s, BackedUp(now, false)), BackupsShed(gone)) && WithinRun(rest)
    ensures
      var worked := Apply(cfg, Apply(cfg, s, BackedUp(now, false)), BackupsShed(gone));
      var failed := Apply(cfg, s, failure);
      && worked.phase.At? && failed.phase.At?
      && failed.phase.job.warnings == worked.phase.job.warnings + 1
      && (Legal(cfg, worked, rest) <==> Legal(cfg, failed, rest))
      && (Legal(cfg, worked, rest) ==> SameButBackup(Exec(cfg, worked, rest), Exec(cfg, failed, rest)))
  {
    var put := Apply(cfg, s, BackedUp(now, false));
    var worked, failed := Apply(cfg, put, BackupsShed(gone)), Apply(cfg, s, failure);
    WorkedOutcome(cfg, s, now, gone);
    FailedOutcome(cfg, s, failure);
    OutcomesAgree(cfg, s, worked, failed);
    SameBackupAlong(cfg, worked, failed, rest);
  }

  /** The backup step has led from s to t, with these variables of the run. */
  ghost predicate AfterBackupStep(cfg: Config, s: State, t: State, job: Job) {
    && t.files == s.files && t.db == s.db && t.temps == s.temps && SameOutsideBackups(s.bucket, t.bucket)
    && t.past.(lastBackup := None, warned := 0) == s.past.(lastBackup := None, warned := 0)
    && t.phase == GoOn(AfterBackup(cfg), job)
  }

  /** The backup has been put; its pruning comes next. */
  ghost predicate AfterBackupPut(s: State, t: State) {
    && t.files == s.files && t.db == s.db && t.temps == s.temps && SameOutsideBackups(s.bucket, t.bucket)
    && t.past.(lastBackup := None, warned := 0) == s.past.(lastBackup := None, warned := 0)
    && s.phase.At? && t.phase == At(ShedBackups, s.phase.job)
  }

  lemma BackupPut(cfg: Config, s: State, now: nat)
    requires Enabled(cfg, s, BackedUp(now, false))
    ensures AfterBackupPut(s, Apply(cfg, s, BackedUp(now, false)))
  {
    BackupKeyPrefix(now);
  }

  lemma BackupsPruned(cfg: Config, s: State, put: State, gone: set<string>)
    requires AfterBackupPut(s, put) && Enabled(cfg, put, BackupsShed(gone))
    ensures AfterBackupStep(cfg, s, Apply(cfg, put, BackupsShed(gone)), s.phase.job)
  {
    if gone != {} {
      Retention.SurplusWithin(put.bucket.Keys, cfg.backupKeep);
    }
  }

  lemma WorkedOutcome(cfg: Config, s: State, now: nat, gone: set<string>)
    requires Enabled(cfg, s, BackedUp(now, false))
    requires Enabled(cfg, Apply(cfg, s, BackedUp(now, false)), BackupsShed(gone))
    ensures AfterBackupStep(cfg, s, Apply(cfg, Apply(cfg, s, BackedUp(now, false)), BackupsShed(gone)), s.phase.job)
  {
    BackupPut(cfg, s, now);
    BackupsPruned(cfg, s, Apply(cfg, s, BackedUp(now, false)), gone);
  }

  lemma FailedOutcome(cfg: Config, s: State, failure: Event)
    requires Enabled(cfg, s, failure) && BackupFails(failure)
    ensures AfterBackupStep(cfg, s, Apply(cfg, s, failure), Warned(s.phase.job))
  {
    if failure.BackedUp? {
      LostBackup(cfg, s, failure.now);
    }
  }

  lemma LostBackup(cfg: Config, s: State, now: nat)
    requires Enabled(cfg, s, BackedUp(now, true))
    ensures AfterBackupStep(cfg, s, Apply(cfg, s, BackedUp(now, true)), Warned(s.phase.job))
  {
    BackupKeyPrefix(now);
  }

  lemma OutcomesAgree(cfg: Config, s: State, worked: State, failed: State)
    requires s.phase.At?
    requires AfterBackupStep(cfg, s, worked, s.phase.job) && AfterBackupStep(cfg, s, failed, Warned(s.phase.job))
    ensures SameButBackup(worked, failed)
    ensures failed.phase.job.warnings == worked.phase.job.warnings + 1
  {
  }

  // ---- snapshot files -----------------------------------------------------

  function Snapshots(trace: seq<Event>): nat {
    if trace == [] then 0 else (if trace[0].Snapped? then 1 else 0) + Snapshots(trace[1..])
  }

  function Cleanups(trace: seq<Event>): nat {
    if trace == [] then 0 else (if trace[0].CleanedUp? then 1 else 0) + Cleanups(trace[1..])
  }

  lemma {:induction false} SnapshotAccount(cfg: Config, s: State, trace: seq<Event>)
    requires Legal(cfg, s, trace) && SnapshotInv(s)
    ensures
      var t := Exec(cfg, s, trace);
      && SnapshotInv(t)
      && s.temps + Snapshots(trace) == Cleanups(trace) + t.temps
    decreases |trace|
  {
    if trace != [] {
      var t := Apply(cfg, s, trace[0]);
      SnapshotStep(cfg, s, trace[0], t);
      CleanupHolds(cfg, s, trace[0]);
      SnapshotAccount(cfg, t, trace[1..]);
    }
  }

  lemma CleanupHolds(cfg: Config, s: State, e: Event)
    requires InPlace(cfg, s.phase, e) && SnapshotInv(s)
    ensures TempsAfter(s.temps, e) + (if e.CleanedUp? then 1 else 0) == s.temps + if e.Snapped? then 1 else 0
  {
  }

  /** Snapshot cleanup happens exactly once for every snapshot taken, apart from
      those of a run still going on and those a crash left behind. */
  lemma EverySnapshotCleanedOnce(cfg: Config, s0: State, trace: seq<Event>)
    requires Fresh(s0) && Legal(cfg, s0, trace)
    ensures
      var s := Exec(cfg, s0, trace);
      Snapshots(trace) == Cleanups(trace) + s.past.leaked + Holding(s)
  {
    SnapshotAccount(cfg, s0, trace);
  }
}
