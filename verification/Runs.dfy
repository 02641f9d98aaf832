/** Theorems about whole runs: every trace the publisher can produce, with
    failures, torn writes, crashes and wipes anywhere. */
module Runs {
  import opened Text
  import opened Calendar
  import opened Store
  import opened Names
  import opened Buckets
  import opened Protocol
  import opened Safety
  import Retention
  import ShrinkGuard
  import Validate

  /** The live index could be fetched whenever the local one was lost. */
  ghost predicate FetchReliable(cfg: Config, s: State, trace: seq<Event>)
    requires Legal(cfg, s, trace)
    decreases |trace|
  {
    trace != [] ==> FetchHolds(cfg, s, trace[0]) && FetchReliable(cfg, Apply(cfg, s, trace[0]), trace[1..])
  }

  lemma {:induction false} InvAlong(cfg: Config, s: State, trace: seq<Event>)
    requires SafePrefix(cfg.prefix) && Legal(cfg, s, trace) && Inv(cfg, s)
    ensures Inv(cfg, Exec(cfg, s, trace))
    decreases |trace|
  {
    if trace != [] {
      InvStep(cfg, s, trace[0]);
      InvAlong(cfg, Apply(cfg, s, trace[0]), trace[1..]);
    }
  }

  lemma {:induction false} VersionAlong(cfg: Config, s: State, trace: seq<Event>)
    requires SafePrefix(cfg.prefix) && Legal(cfg, s, trace) && FetchReliable(cfg, s, trace)
    requires Inv(cfg, s) && VersionInv(cfg, s)
    ensures VersionInv(cfg, Exec(cfg, s, trace))
    decreases |trace|
  {
    if trace != [] {
      VersionSteps(cfg, s, trace[0]);
      InvStep(cfg, s, trace[0]);
      VersionAlong(cfg, Apply(cfg, s, trace[0]), trace[1..]);
    }
  }

  lemma {:induction false} BackupAlong(cfg: Config, s: State, trace: seq<Event>)
    requires SafePrefix(cfg.prefix) && cfg.backupKeep >= 1 && Legal(cfg, s, trace) && BackupInv(s)
    ensures BackupInv(Exec(cfg, s, trace))
    decreases |trace|
  {
    if trace != [] {
      BackupStep(cfg, s, trace[0]);
      BackupAlong(cfg, Apply(cfg, s, trace[0]), trace[1..]);
    }
  }

  lemma ReachInv(cfg: Config, s0: State, trace: seq<Event>)
    requires SafePrefix(cfg.prefix) && Fresh(s0) && Legal(cfg, s0, trace)
    ensures Inv(cfg, Exec(cfg, s0, trace))
  {
    FreshInv(cfg, s0);
    InvAlong(cfg, s0, trace);
  }

  // ---- version safety -----------------------------------------------------

  /** Version safety: over any run, the versions of the index puts increase, the
      live index carries the last of them, and a local index that parses is never
      behind it, provided the live fetch succeeds whenever the local index is lost. */
  lemma VersionSafety(cfg: Config, s0: State, trace: seq<Event>)
    requires SafePrefix(cfg.prefix) && Fresh(s0) && Legal(cfg, s0, trace) && FetchReliable(cfg, s0, trace)
    ensures
      var s := Exec(cfg, s0, trace);
      var published := s.past.published;
      && Increasing(published)
      && LiveVersion(cfg.prefix, s.bucket) == (if published == [] then 0 else published[|published| - 1])
      && (LocalVersion(s.files).Some? ==> LocalVersion(s.files).value >= LiveVersion(cfg.prefix, s.bucket))
  {
    FreshInv(cfg, s0);
    VersionAlong(cfg, s0, trace);
  }

  /** No index file is torn and OUT_DIR is not wiped. */
  ghost predicate IndexIntact(cfg: Config, s: State, trace: seq<Event>)
    requires Legal(cfg, s, trace)
    decreases |trace|
  {
    trace != [] ==>
      && !trace[0].WipeOut? && !(trace[0].Tore? && s.phase.At? && s.phase.stage == WriteIndex)
      && IndexIntact(cfg, Apply(cfg, s, trace[0]), trace[1..])
  }

  /** The number of index files written whole. */
  ghost function IndexesWritten(cfg: Config, s: State, trace: seq<Event>): nat
    requires Legal(cfg, s, trace)
    decreases |trace|
  {
    if trace == [] then 0
    else
      (if trace[0].Wrote? && s.phase.At? && s.phase.stage == WriteIndex then 1 else 0)
      + IndexesWritten(cfg, Apply(cfg, s, trace[0]), trace[1..])
  }

  /** The local index carries v, and an index about to be written the next number. */
  predicate LocalIs(s: State, v: nat) {
    && Index in s.files && s.files[Index].IndexFile? && s.files[Index].index.version == v
    && (s.phase.At? && s.phase.stage == WriteIndex ==> s.phase.job.index.version == v + 1)
  }

  lemma LocalFile(cfg: Config, s: State, e: Event)
    requires InPlace(cfg, s.phase, e) && Index in s.files
    requires !e.WipeOut? && !(s.phase.At? && s.phase.stage == WriteIndex && (e.Wrote? || e.Tore?))
    ensures Index in FilesAfter(s.files, s.phase, e) && FilesAfter(s.files, s.phase, e)[Index] == s.files[Index]
  {
  }

  lemma ReachesWrite(cfg: Config, s: State, e: Event)
    requires InPlace(cfg, s.phase, e)
    requires PhaseAfter(cfg, s, e).At? && PhaseAfter(cfg, s, e).stage == WriteIndex
    ensures e.ReadIndex?
    ensures PhaseAfter(cfg, s, e).job.index.version ==
            PreviousVersion(cfg.prefix, s.files, s.bucket, e.fetched) + 1
  {
  }

  lemma LocalStep(cfg: Config, s: State, e: Event, v: nat)
    requires Enabled(cfg, s, e) && LocalIs(s, v)
    requires !e.WipeOut? && !(e.Tore? && s.phase.At? && s.phase.stage == WriteIndex)
    ensures LocalIs(Apply(cfg, s, e), if e.Wrote? && s.phase.At? && s.phase.stage == WriteIndex then v + 1 else v)
  {
    var t := Apply(cfg, s, e);
    if t.phase.At? && t.phase.stage == WriteIndex {
      ReachesWrite(cfg, s, e);
      NextNumber(cfg, s.files, s.bucket, e.fetched);
    }
    if !(e.Wrote? && s.phase.At? && s.phase.stage == WriteIndex) {
      LocalFile(cfg, s, e);
    }
  }

  lemma {:induction false} LocalAlong(cfg: Config, s: State, trace: seq<Event>, v: nat)
    requires Legal(cfg, s, trace) && IndexIntact(cfg, s, trace) && LocalIs(s, v)
    ensures LocalIs(Exec(cfg, s, trace), v + IndexesWritten(cfg, s, trace))
    decreases |trace|
  {
    if trace != [] {
      LocalStep(cfg, s, trace[0], v);
      var next := if trace[0].Wrote? && s.phase.At? && s.phase.stage == WriteIndex then v + 1 else v;
      LocalAlong(cfg, Apply(cfg, s, trace[0]), trace[1..], next);
    }
  }

  lemma LocalLater(cfg: Config, t: State, between: seq<Event>, u: State, v: nat, w: nat)
    requires SafePrefix(cfg.prefix) && Inv(cfg, t) && LocalIs(t, v)
    requires Legal(cfg, t, between) && IndexIntact(cfg, t, between)
    requires u == Exec(cfg, t, between) && w == v + IndexesWritten(cfg, t, between)
    ensures Inv(cfg, u) && LocalIs(u, w)
  {
    LocalAlong(cfg, t, between, v);
    InvAlong(cfg, t, between);
  }

  /** Numbering between publishes: from one index put, in any state s that can be
      reached, to a later one in u, with OUT_DIR intact, the version grows by exactly the
      number of indexes written in between. */
  lemma PutsAreNumbered(
    cfg: Config, s0: State, before: seq<Event>, s: State, lost: bool, t: State,
    between: seq<Event>, u: State, again: bool, number: nat)
    requires SafePrefix(cfg.prefix) && Fresh(s0) && Legal(cfg, s0, before) && s == Exec(cfg, s0, before)
    requires s.phase.At? && s.phase.stage == PutIndex && Enabled(cfg, s, Put(lost)) && t == Apply(cfg, s, Put(lost))
    requires Legal(cfg, t, between) && IndexIntact(cfg, t, between) && u == Exec(cfg, t, between)
    requires u.phase.At? && u.phase.stage == PutIndex && Enabled(cfg, u, Put(again))
    requires number == s.phase.job.index.version + IndexesWritten(cfg, t, between)
    ensures t.past.published == s.past.published + [s.phase.job.index.version]
    ensures Apply(cfg, u, Put(again)).past.published == u.past.published + [number]
  {
    ReachInv(cfg, s0, before);
    PutState(cfg, s, lost, t);
    NumberedLater(cfg, t, between, u, s.phase.job.index.version, number, again);
  }

  lemma NumberedLater(cfg: Config, t: State, between: seq<Event>, u: State, v: nat, w: nat, again: bool)
    requires SafePrefix(cfg.prefix) && Inv(cfg, t) && LocalIs(t, v)
    requires Legal(cfg, t, between) && IndexIntact(cfg, t, between) && u == Exec(cfg, t, between)
    requires u.phase.At? && u.phase.stage == PutIndex && Enabled(cfg, u, Put(again))
    requires w == v + IndexesWritten(cfg, t, between)
    ensures Apply(cfg, u, Put(again)).past.published == u.past.published + [w]
  {
    LocalLater(cfg, t, between, u, v, w);
    NumberPut(cfg, u, again, w);
  }

  lemma PutState(cfg: Config, s: State, lost: bool, t: State)
    requires SafePrefix(cfg.prefix) && Inv(cfg, s)
    requires s.phase.At? && s.phase.stage == PutIndex && Enabled(cfg, s, Put(lost)) && t == Apply(cfg, s, Put(lost))
    ensures Inv(cfg, t) && LocalIs(t, s.phase.job.index.version)
    ensures t.past.published == s.past.published + [s.phase.job.index.version]
  {
    InvStep(cfg, s, Put(lost));
    PutKeepsLocal(cfg, s, lost);
  }

  lemma NumberPut(cfg: Config, u: State, lost: bool, v: nat)
    requires Inv(cfg, u) && LocalIs(u, v)
    requires u.phase.At? && u.phase.stage == PutIndex && Enabled(cfg, u, Put(lost))
    ensures Apply(cfg, u, Put(lost)).past.published == u.past.published + [v]
  {
    PutKeepsLocal(cfg, u, lost);
  }

  /** An index put publishes the local index and leaves it there. */
  lemma PutKeepsLocal(cfg: Config, s: State, lost: bool)
    requires FilesInv(s.files, s.phase) && s.phase.At? && s.phase.stage == PutIndex && Enabled(cfg, s, Put(lost))
    ensures LocalIs(s, s.phase.job.index.version) && LocalIs(Apply(cfg, s, Put(lost)), s.phase.job.index.version)
    ensures Apply(cfg, s, Put(lost)).past.published == s.past.published + [s.phase.job.index.version]
  {
  }

  // ---- readers ------------------------------------------------------------

  lemma {:induction false} RunStampsGrow(cfg: Config, s: State, trace: seq<Event>)
    requires SafePrefix(cfg.prefix) && Legal(cfg, s, trace) && Inv(cfg, s)
    ensures s.past.bundleRun <= Exec(cfg, s, trace).past.bundleRun
    ensures Live(cfg, s.bucket, Index).Some? ==> Live(cfg, Exec(cfg, s, trace).bucket, Gz).Some?
    decreases |trace|
  {
    if trace != [] {
      var t := Apply(cfg, s, trace[0]);
      ReaderSteps(cfg, s, trace[0]);
      InvStep(cfg, s, trace[0]);
      LiveFrame(cfg, s, trace[0], Index);
      RunStampsGrow(cfg, t, trace[1..]);
    }
  }

  /** Reader safety: a reader that fetches the index after the events of first and
      the bundle after those of second, whatever they are, finds a bundle, and one
      written by the run that wrote its index or by a later run. */
  lemma ReaderSafety(cfg: Config, s0: State, first: seq<Event>, second: seq<Event>)
    requires SafePrefix(cfg.prefix) && Fresh(s0) && Legal(cfg, s0, first + second)
    ensures Legal(cfg, s0, first)
    ensures
      var atIndex, atBundle := Exec(cfg, s0, first), Exec(cfg, s0, first + second);
      Live(cfg, atIndex.bucket, Index).Some? ==>
        && Live(cfg, atBundle.bucket, Gz).Some?
        && atIndex.past.indexRun <= atBundle.past.bundleRun
  {
    LegalConcat(cfg, s0, first, second);
    FreshInv(cfg, s0);
    InvAlong(cfg, s0, first);
    RunStampsGrow(cfg, Exec(cfg, s0, first), second);
  }

  /** In every reachable state outside the window from a bundle put to the next
      index put, a live index with a checksum names the live bundle. */
  lemma LivePairAgrees(cfg: Config, s0: State, trace: seq<Event>)
    requires SafePrefix(cfg.prefix) && Fresh(s0) && Legal(cfg, s0, trace)
    ensures
      var s := Exec(cfg, s0, trace);
      var gz, index := Live(cfg, s.bucket, Gz), Live(cfg, s.bucket, Index);
      && (index.Some? ==> index.value.IndexFile? && gz.Some? && gz.value.BundleFile?)
      && (!s.past.dirty && index.Some? && index.value.index.fullSha != NoDigest ==>
            index.value.index.fullSha == DigestOf(gz.value))
  {
    FreshInv(cfg, s0);
    InvAlong(cfg, s0, trace);
  }

  /** What is uploaded is coherent: after a successful export and validation the
      bundle is there, index and meta carry the same checksum and the index one
      version; and that checksum is the bundle's exactly when it is not empty. */
  lemma UploadIsCoherent(cfg: Config, s0: State, trace: seq<Event>)
    requires SafePrefix(cfg.prefix) && Fresh(s0) && Legal(cfg, s0, trace)
    requires Between(Exec(cfg, s0, trace).phase, CheckDir, ShedArchives)
    ensures
      var s := Exec(cfg, s0, trace);
      && Gz in s.files && Meta in s.files && Index in s.files
      && s.files[Meta].MetaFile? && s.files[Index].IndexFile?
      && s.files[Index].index.fullVersion == s.files[Index].index.version
      && s.files[Index].index.fullSha == s.files[Meta].meta.fullSha
      && (s.files[Index].index.fullSha == DigestOf(s.files[Gz]) <==> s.files[Meta].meta.fullSha != NoDigest)
  {
    ReachInv(cfg, s0, trace);
    UploadCoherence(Exec(cfg, s0, trace));
  }

  lemma UploadCoherence(s: State)
    requires FilesInv(s.files, s.phase) && DirInv(s.files, s.phase) && Between(s.phase, CheckDir, ShedArchives)
    ensures
      && Gz in s.files && Meta in s.files && Index in s.files
      && s.files[Meta].MetaFile? && s.files[Index].IndexFile?
      && s.files[Index].index.fullVersion == s.files[Index].index.version
      && s.files[Index].index.fullSha == s.files[Meta].meta.fullSha
      && (s.files[Index].index.fullSha == DigestOf(s.files[Gz]) <==> s.files[Meta].meta.fullSha != NoDigest)
  {
    Validate.ValidationCoherence(s.files);
  }

  // ---- the shrink guard over runs -----------------------------------------

  datatype Column = Games | SaveLocations | Catalog

  function Pick(c: Counts, column: Column): int {
    match column
    case Games => c.games
    case SaveLocations => c.saveLocations
    case Catalog => c.catalog
  }

  function PickAll(chain: seq<Counts>, column: Column): (r: seq<int>)
    ensures |r| == |chain| && forall i :: 0 <= i < |r| ==> r[i] == Pick(chain[i], column)
  {
    seq(|chain|, i requires 0 <= i < |chain| => Pick(chain[i], column))
  }

  /** Compounded shrink bound: in every reachable state, along the unforced exports
      since the meta file was last forced, torn or wiped, the present counts are at
      least (3/4)^k of every positive count k exports back, and stay positive. */
  lemma CompoundedShrinkBound(cfg: Config, s0: State, trace: seq<Event>, column: Column)
    requires SafePrefix(cfg.prefix) && Fresh(s0) && Legal(cfg, s0, trace)
    ensures
      var s := Exec(cfg, s0, trace);
      var counts := PickAll(s.past.chain, column);
      var last := |counts| - 1;
      && (counts != [] <==> Meta in s.files && s.files[Meta].MetaFile?)
      && (counts != [] ==> counts[last] == Pick(s.files[Meta].meta.counts, column))
      && (forall j {:trigger counts[j]} :: 0 <= j <= last && counts[j] > 0 ==>
            && ShrinkGuard.Power(4, last - j) * counts[last] >= ShrinkGuard.Power(3, last - j) * counts[j]
            && counts[last] > 0)
  {
    ReachInv(cfg, s0, trace);
    var chain := Exec(cfg, s0, trace).past.chain;
    ChainBound(chain, column);
  }

  lemma ChainBound(chain: seq<Counts>, column: Column)
    requires forall i :: 0 < i < |chain| ==> !ShrinkGuard.Breaches(chain[i - 1], chain[i])
    ensures
      var counts := PickAll(chain, column);
      var last := |counts| - 1;
      forall j {:trigger counts[j]} :: 0 <= j <= last && counts[j] > 0 ==>
        && ShrinkGuard.Power(4, last - j) * counts[last] >= ShrinkGuard.Power(3, last - j) * counts[j]
        && counts[last] > 0
  {
    var counts := PickAll(chain, column);
    var last := |counts| - 1;
    ChainAccepted(chain, column);
    forall j | 0 <= j <= last && counts[j] > 0
      ensures ShrinkGuard.Power(4, last - j) * counts[last] >= ShrinkGuard.Power(3, last - j) * counts[j]
      ensures counts[last] > 0
    {
      ShrinkGuard.AcceptedSuffix(counts, j);
      ShrinkGuard.CompoundedBound(counts[j..]);
    }
  }

  lemma ChainAccepted(chain: seq<Counts>, column: Column)
    requires forall i :: 0 < i < |chain| ==> !ShrinkGuard.Breaches(chain[i - 1], chain[i])
    ensures ShrinkGuard.Accepted(PickAll(chain, column))
  {
    var counts := PickAll(chain, column);
    forall i | 0 < i < |counts| ensures !ShrinkGuard.Collapsed(counts[i - 1], counts[i]) {
      assert !ShrinkGuard.Breaches(chain[i - 1], chain[i]);
    }
  }

  /** The run has not got past the guard. */
  predicate BeforeGuard(phase: Phase) {
    phase.At? ==> Rank(phase.stage) <= Rank(GuardExport) || phase.stage == Unwind
  }

  /** Every export attempted breaches the baseline m, unforced; OUT_DIR is left alone. */
  predicate StillBreaches(trace: seq<Event>, m: Counts) {
    forall e :: e in trace ==>
      && !e.WipeOut?
      && (e.Accepted? || e.Refused? ==> !e.x.forced && ShrinkGuard.Breaches(m, e.x.meta.counts))
  }

  lemma BeforeGuardMoves(cfg: Config, s: State, e: Event)
    requires InPlace(cfg, s.phase, e) && BeforeGuard(s.phase) && !e.Accepted?
    ensures BeforeGuard(PhaseAfter(cfg, s, e))
  {
  }

  lemma BeforeGuardStores(cfg: Config, s: State, e: Event)
    requires InPlace(cfg, s.phase, e) && BeforeGuard(s.phase) && !e.WipeOut?
    ensures FilesAfter(s.files, s.phase, e) == s.files
    ensures PastAfter(s.past, s.phase, e).published == s.past.published
    ensures !e.Put? && !e.DroppedDelta? && !e.BackedUp? && !e.BackupsShed? && !e.ArchivesShed?
  {
    BeforeGuardEvents(cfg, s, e);
  }

  lemma BeforeGuardEvents(cfg: Config, s: State, e: Event)
    requires InPlace(cfg, s.phase, e) && BeforeGuard(s.phase)
    ensures !e.Wrote? && !e.Tore? && !e.WroteReleases? && !e.RemovedDelta?
    ensures !e.Put? && !e.DroppedDelta? && !e.BackedUp? && !e.BackupsShed? && !e.ArchivesShed?
  {
  }

  lemma StickyStep(cfg: Config, s: State, e: Event, m: MetaDoc)
    requires Enabled(cfg, s, e) && BeforeGuard(s.phase) && Meta in s.files && s.files[Meta] == MetaFile(m)
    requires !e.WipeOut?
    requires e.Accepted? ==> !e.x.forced && ShrinkGuard.Breaches(m.counts, e.x.meta.counts)
    ensures !e.Accepted?
    ensures
      var t := Apply(cfg, s, e);
      BeforeGuard(t.phase) && t.files == s.files && t.bucket == s.bucket && t.past.published == s.past.published
  {
    assert !e.Accepted?;
    BeforeGuardMoves(cfg, s, e);
    BeforeGuardStores(cfg, s, e);
  }

  /** Refusal is sticky: over runs of any length, while every export breaches the
      same baseline, all are refused and no file and no object changes. */
  lemma {:induction false} RefusalIsSticky(cfg: Config, s: State, trace: seq<Event>, m: MetaDoc)
    requires Legal(cfg, s, trace) && BeforeGuard(s.phase)
    requires Meta in s.files && s.files[Meta] == MetaFile(m) && StillBreaches(trace, m.counts)
    ensures forall e :: e in trace ==> !e.Accepted?
    ensures
      var t := Exec(cfg, s, trace);
      BeforeGuard(t.phase) && t.files == s.files && t.bucket == s.bucket && t.past.published == s.past.published
    decreases |trace|
  {
    if trace != [] {
      assert trace[0] in trace;
      StickyStep(cfg, s, trace[0], m);
      assert forall e :: e in trace[1..] ==> e in trace;
      RefusalIsSticky(cfg, Apply(cfg, s, trace[0]), trace[1..], m);
      assert forall e :: e in trace <==> e == trace[0] || e in trace[1..];
    }
  }

  /** No run begins, and nothing happens between runs. */
  predicate WithinRun(trace: seq<Event>) {
    forall e :: e in trace ==> !BetweenRuns(e)
  }

  /** While a run has not got past the guard, files, bucket and publications are as
      they were at start. */
  ghost predicate SameBeforeGuard(start: State, s: State) {
    s.phase.At? && Rank(s.phase.stage) <= Rank(GuardExport) ==>
      s.files == start.files && s.bucket == start.bucket && s.past.published == start.past.published
  }

  lemma RanksGrow(cfg: Config, s: State, e: Event)
    requires InPlace(cfg, s.phase, e) && !BetweenRuns(e)
    ensures PhaseAfter(cfg, s, e).At? ==>
              && Rank(s.phase.stage) <= Rank(PhaseAfter(cfg, s, e).stage)
              && (e.Accepted? ==> Rank(PhaseAfter(cfg, s, e).stage) > Rank(GuardExport))
  {
  }

  lemma SameBeforeGuardStep(cfg: Config, start: State, s: State, e: Event)
    requires Enabled(cfg, s, e) && !BetweenRuns(e) && SameBeforeGuard(start, s)
    ensures SameBeforeGuard(start, Apply(cfg, s, e))
  {
    RanksGrow(cfg, s, e);
    if s.phase.At? && Rank(s.phase.stage) <= Rank(GuardExport) {
      BeforeGuardStores(cfg, s, e);
    }
  }

  lemma {:induction false} SameBeforeGuardAlong(cfg: Config, start: State, s: State, trace: seq<Event>)
    requires Legal(cfg, s, trace) && WithinRun(trace) && SameBeforeGuard(start, s)
    ensures SameBeforeGuard(start, Exec(cfg, s, trace))
    decreases |trace|
  {
    if trace != [] {
      assert trace[0] in trace;
      SameBeforeGuardStep(cfg, start, s, trace[0]);
      assert forall e :: e in trace[1..] ==> e in trace;
      SameBeforeGuardAlong(cfg, start, Apply(cfg, s, trace[0]), trace[1..]);
    }
  }

  /** A run whose export is refused changes no file and no object and publishes
      nothing, whatever else happened in it; all it still does is clean up. */
  lemma RefusalChangesNothing(cfg: Config, s: State, run: seq<Event>, x: Export)
    requires s.phase.Idle? && WithinRun(run) && Legal(cfg, s, [Begin] + run + [Refused(x)])
    ensures
      var t := Exec(cfg, s, [Begin] + run + [Refused(x)]);
      && t.files == s.files && t.bucket == s.bucket && t.past.published == s.past.published
      && t.phase.At? && t.phase.stage == Unwind && !t.phase.job.ok
      && (forall e :: Enabled(cfg, t, e) ==>
            && (e.CleanedUp? || e.Crash?)
            && var u := Apply(cfg, t, e);
               u.phase.Idle? && u.files == s.files && u.bucket == s.bucket && u.past.published == s.past.published)
  {
    LegalConcat(cfg, s, [Begin] + run, [Refused(x)]);
    LegalConcat(cfg, s, [Begin], run);
    assert Legal(cfg, s, [Begin]) && [Begin][1..] == [];
    var b := Apply(cfg, s, Begin);
    assert Exec(cfg, s, [Begin]) == b;
    SameBeforeGuardAlong(cfg, s, b, run);
    var t := Exec(cfg, b, run);
    LegalSnoc(cfg, s, [Begin] + run, Refused(x));
    RefusalStep(cfg, t, x);
  }

  lemma RefusalStep(cfg: Config, s: State, x: Export)
    requires Enabled(cfg, s, Refused(x))
    ensures
      var t := Apply(cfg, s, Refused(x));
      && s.phase.stage == GuardExport && t.phase == At(Unwind, s.phase.job.(ok := false))
      && t.files == s.files && t.bucket == s.bucket && t.past.published == s.past.published
      && (forall e :: Enabled(cfg, t, e) ==> UnwindStep(cfg, t, e))
  {
    var t := Apply(cfg, s, Refused(x));
    forall e | Enabled(cfg, t, e) ensures UnwindStep(cfg, t, e) {
      UnwindEnds(cfg, t, e);
    }
  }

  ghost predicate UnwindStep(cfg: Config, t: State, e: Event)
    requires Enabled(cfg, t, e)
  {
    && (e.CleanedUp? || e.Crash?)
    && var u := Apply(cfg, t, e);
       u.phase.Idle? && u.files == t.files && u.bucket == t.bucket && u.past.published == t.past.published
  }

  lemma UnwindEnds(cfg: Config, t: State, e: Event)
    requires t.phase.At? && t.phase.stage == Unwind && Enabled(cfg, t, e)
    ensures UnwindStep(cfg, t, e)
  {
  }

  // ---- the published counts -----------------------------------------------

  /** The event writes, tears or wipes the local meta file. */
  predicate TouchesMeta(phase: Phase, e: Event) {
    e.WipeOut? || (phase.At? && phase.stage == WriteMeta && (e.Wrote? || e.Tore?))
  }

  ghost predicate MetaUntouched(cfg: Config, s: State, trace: seq<Event>)
    requires Legal(cfg, s, trace)
    decreases |trace|
  {
    trace != [] ==> !TouchesMeta(s.phase, trace[0]) && MetaUntouched(cfg, Apply(cfg, s, trace[0]), trace[1..])
  }

  /** The local meta file is the live one. */
  ghost predicate MetaIsLive(cfg: Config, s: State, m: MetaDoc) {
    Meta in s.files && s.files[Meta] == MetaFile(m) && Live(cfg, s.bucket, Meta) == Some(MetaFile(m))
  }

  lemma MetaFileStays(cfg: Config, s: State, e: Event)
    requires InPlace(cfg, s.phase, e) && !TouchesMeta(s.phase, e) && Meta in s.files
    ensures Meta in FilesAfter(s.files, s.phase, e) && FilesAfter(s.files, s.phase, e)[Meta] == s.files[Meta]
  {
  }

  lemma {:induction false} MetaStaysLive(cfg: Config, s: State, trace: seq<Event>, m: MetaDoc)
    requires SafePrefix(cfg.prefix) && Legal(cfg, s, trace) && MetaUntouched(cfg, s, trace) && MetaIsLive(cfg, s, m)
    ensures MetaIsLive(cfg, Exec(cfg, s, trace), m)
    decreases |trace|
  {
    if trace != [] {
      MetaFileStays(cfg, s, trace[0]);
      LiveFrame(cfg, s, trace[0], Meta);
      MetaStaysLive(cfg, Apply(cfg, s, trace[0]), trace[1..], m);
    }
  }

  lemma MetaPut(cfg: Config, s: State, lost: bool)
    requires SafePrefix(cfg.prefix) && FilesInv(s.files, s.phase)
    requires s.phase.At? && s.phase.stage == PutMeta && Enabled(cfg, s, Put(lost))
    ensures MetaIsLive(cfg, Apply(cfg, s, Put(lost)), s.phase.job.x.meta)
  {
    MetaIsWhole(s);
    LiveFrame(cfg, s, Put(lost), Meta);
    MetaFileStays(cfg, s, Put(lost));
  }

  lemma MetaIsWhole(s: State)
    requires FilesInv(s.files, s.phase) && s.phase.At? && s.phase.stage == PutMeta
    ensures Meta in s.files && s.files[Meta] == MetaFile(s.phase.job.x.meta)
    ensures PutsLive(s, Put(true), Meta) && PutsLive(s, Put(false), Meta)
  {
  }

  lemma AcceptedNearLive(cfg: Config, s: State, m: MetaDoc, x: Export)
    requires MetaIsLive(cfg, s, m) && Enabled(cfg, s, Accepted(x)) && !x.forced
    ensures !ShrinkGuard.Breaches(m.counts, x.meta.counts)
  {
  }

  /** Over every trace: as long as the meta file has not been written, torn or wiped
      since it was last put, it is the live one, and no count of an export that is
      then accepted unforced is more than a quarter below the published count. */
  lemma GuardProtectsPublished(
    cfg: Config, s0: State, before: seq<Event>, lost: bool, after: seq<Event>, x: Export)
    requires SafePrefix(cfg.prefix) && Fresh(s0) && Legal(cfg, s0, before)
    requires
      var s := Exec(cfg, s0, before);
      && s.phase.At? && s.phase.stage == PutMeta && Enabled(cfg, s, Put(lost))
      && var t := Apply(cfg, s, Put(lost));
      && Legal(cfg, t, after) && MetaUntouched(cfg, t, after)
      && Enabled(cfg, Exec(cfg, t, after), Accepted(x)) && !x.forced
    ensures
      var s := Exec(cfg, s0, before);
      var end := Exec(cfg, Apply(cfg, s, Put(lost)), after);
      && MetaIsLive(cfg, end, s.phase.job.x.meta)
      && !ShrinkGuard.Breaches(s.phase.job.x.meta.counts, x.meta.counts)
  {
    ReachInv(cfg, s0, before);
    var s := Exec(cfg, s0, before);
    MetaPut(cfg, s, lost);
    var t := Apply(cfg, s, Put(lost));
    MetaStaysLive(cfg, t, after, s.phase.job.x.meta);
    AcceptedNearLive(cfg, Exec(cfg, t, after), s.phase.job.x.meta, x);
  }

  /** Exactly when the guard keeps every unforced export within a quarter of some
      published counts, whatever has become of the meta file since: column by column
      the least count it accepts must be. */
  lemma PublishedProtectedExactly(cfg: Config, s: State, published: Counts)
    requires s.phase.At? && s.phase.stage == GuardExport
    ensures
      (forall x: Export :: !x.forced && ShrinkGuard.RowCounts(x.meta.counts) && Enabled(cfg, s, Accepted(x)) ==>
         !ShrinkGuard.Breaches(published, x.meta.counts))
      <==> ShrinkGuard.CountsProtect(ShrinkGuard.Baseline(s.files), published)
  {
    var base := ShrinkGuard.Baseline(s.files);
    ShrinkGuard.CountsProtectExact(base, published);
    forall x: Export | !x.forced
      ensures Enabled(cfg, s, Accepted(x)) <==> !ShrinkGuard.Breaches(base, x.meta.counts)
    {
      ShrinkGuard.RefusesByBaseline(s.files, x.meta.counts);
    }
    if forall x: Export :: !x.forced && ShrinkGuard.RowCounts(x.meta.counts) && Enabled(cfg, s, Accepted(x)) ==>
         !ShrinkGuard.Breaches(published, x.meta.counts) {
      forall next | ShrinkGuard.RowCounts(next) && !ShrinkGuard.Breaches(base, next)
        ensures !ShrinkGuard.Breaches(published, next)
      {
        var x := NO_EXPORT.(meta := NO_EXPORT.meta.(counts := next));
        assert Enabled(cfg, s, Accepted(x));
      }
    }
  }

  // ---- without R2 ---------------------------------------------------------

  /** The run has no client, and if it is on its way out, then with an error. */
  predicate Unconnected(phase: Phase) {
    phase.At? ==> Rank(phase.stage) <= Rank(Connect) || (phase.stage == Unwind && !phase.job.ok)
  }

  ghost predicate SameRemote(s: State, t: State) {
    t.bucket == s.bucket && t.past.published == s.past.published && t.past.lastBackup == s.past.lastBackup
  }

  lemma UnconnectedPhase(cfg: Config, s: State, e: Event)
    requires InPlace(cfg, s.phase, e) && Unconnected(s.phase) && !e.Connected?
    ensures Unconnected(PhaseAfter(cfg, s, e))
  {
  }

  lemma UnconnectedStores(cfg: Config, s: State, e: Event)
    requires Enabled(cfg, s, e) && Unconnected(s.phase)
    ensures BucketAfter(cfg, s, e) == s.bucket
    ensures PastAfter(s.past, s.phase, e).published == s.past.published
    ensures PastAfter(s.past, s.phase, e).lastBackup == s.past.lastBackup
  {
    LocalEvents(cfg, s, e);
  }

  lemma LocalEvents(cfg: Config, s: State, e: Event)
    requires InPlace(cfg, s.phase, e) && Unconnected(s.phase)
    ensures !e.Put? && !e.DroppedDelta? && !e.BackedUp? && !e.BackupsShed? && !e.ArchivesShed?
  {
  }

  /** Without R2 nothing is put, deleted or restored, over any trace, and no run
      succeeds. */
  lemma {:induction false} NothingWithoutR2(cfg: Config, s: State, trace: seq<Event>)
    requires !cfg.r2 && Unconnected(s.phase) && Legal(cfg, s, trace)
    ensures Unconnected(Exec(cfg, s, trace).phase) && SameRemote(s, Exec(cfg, s, trace))
    ensures forall e :: e in trace ==> !e.Put? && !e.DroppedDelta? && !e.BackedUp? && !e.BackupsShed?
                                       && !e.ArchivesShed? && !e.Restored?
    decreases |trace|
  {
    if trace != [] {
      var e := trace[0];
      NotRemote(cfg, s, e);
      UnconnectedPhase(cfg, s, e);
      UnconnectedStores(cfg, s, e);
      NothingWithoutR2(cfg, Apply(cfg, s, e), trace[1..]);
      assert forall f :: f in trace ==> f == e || f in trace[1..];
    }
  }

  lemma NotRemote(cfg: Config, s: State, e: Event)
    requires !cfg.r2 && Enabled(cfg, s, e) && Unconnected(s.phase)
    ensures !e.Connected? && !e.Put? && !e.DroppedDelta? && !e.BackedUp? && !e.BackupsShed?
            && !e.ArchivesShed? && !e.Restored?
  {
  }

  // ---- backups and recovery -----------------------------------------------

  /** Backup conservation: with keep at least 1, in every reachable state the backup
      put last is there, is the newest by key, and restoring returns its bytes. */
  lemma BackupConservation(cfg: Config, s0: State, trace: seq<Event>)
    requires SafePrefix(cfg.prefix) && cfg.backupKeep >= 1 && Fresh(s0) && Legal(cfg, s0, trace)
    requires Exec(cfg, s0, trace).past.lastBackup.Some?
    ensures
      var s := Exec(cfg, s0, trace);
      && Backups(s.bucket) != {}
      && (s.phase.Idle? ==>
            Enabled(cfg, s, Restored) && Apply(cfg, s, Restored).db == Some(s.past.lastBackup.value.snap))
  {
    FreshInv(cfg, s0);
    BackupAlong(cfg, s0, trace);
    if !cfg.r2 {
      NothingWithoutR2(cfg, s0, trace);
    }
    RestoreReturnsLast(cfg, Exec(cfg, s0, trace));
  }

  lemma RestoreReturnsLast(cfg: Config, s: State)
    requires cfg.r2 && BackupInv(s) && s.past.lastBackup.Some?
    ensures Backups(s.bucket) != {}
    ensures s.phase.Idle? ==>
              Enabled(cfg, s, Restored) && Apply(cfg, s, Restored).db == Some(s.past.lastBackup.value.snap)
  {
    LastBackupIsGreatest(s);
    var newest := BackupKey(s.past.lastBackup.value.at);
    if s.phase.Idle? {
      assert NewestBackup(s.bucket, newest);
      forall k | NewestBackup(s.bucket, k) ensures k == newest {
        Retention.GreatestUnique(k, newest, Backups(s.bucket));
      }
    }
  }

  /** A backup put under a new key and completely pruned leaves the
      min(keep, before + 1) newest backups, the new one the newest. */
  lemma FullBackupStep(s: State, now: nat, snap: Snapshot, keep: nat)
    requires keep >= 1 && BackupInv(s) && FourDigitYear(now)
    requires s.past.lastBackup.Some? ==> s.past.lastBackup.value.at < now
    ensures
      var put := s.bucket[BackupKey(now) := BackupFile(snap)];
      var left := Backups(put - Retention.Surplus(put.Keys, keep));
      var n := |Backups(s.bucket)| + 1;
      && |left| == (if keep < n then keep else n)
      && Retention.IsGreatest(BackupKey(now), left)
      && left + Retention.Surplus(put.Keys, keep) == Backups(s.bucket) + {BackupKey(now)}
      && (forall k, g :: k in left && g in Retention.Surplus(put.Keys, keep) ==> Less(g, k))
  {
    BackupKeyPrefix(now);
    NewerThanAll(s, now);
    Retention.PutThenPrune(s.bucket, BackupKey(now), BackupFile(snap), keep);
  }

  lemma NewerThanAll(s: State, now: nat)
    requires BackupInv(s) && FourDigitYear(now)
    requires s.past.lastBackup.Some? ==> s.past.lastBackup.value.at < now
    ensures forall k :: k in Under(s.bucket.Keys, BACKUPS) ==> Less(k, BackupKey(now))
    ensures BackupKey(now) !in s.bucket.Keys
  {
    forall k | k in Under(s.bucket.Keys, BACKUPS) ensures Less(k, BackupKey(now)) {
      assert k in Backups(s.bucket);
      assert OldBackup(k, s.past.lastBackup.value.at);
      var u: nat :| FourDigitYear(u) && k == BackupKey(u) && u <= s.past.lastBackup.value.at;
      BackupKeyOrder(u, now);
    }
    LessIrreflexive(BackupKey(now));
    BackupKeyPrefix(now);
  }

  /** The host was rebuilt: no database, and no run past its check. */
  predicate Blank(s: State) {
    s.db.None? && (s.phase.At? ==> Rank(s.phase.stage) <= Rank(CheckDb))
  }

  lemma BlankStep(cfg: Config, s: State, e: Event)
    requires Enabled(cfg, s, e) && Blank(s) && !cfg.prodSource && !e.Restored?
    ensures
      var t := Apply(cfg, s, e);
      Blank(t) && t.bucket == s.bucket && t.past.published == s.past.published
      && t.past.lastBackup == s.past.lastBackup && t.clock == s.clock
  {
    BlankEvents(cfg, s, e);
    BlankPhase(cfg, s, e);
    BlankStores(cfg, s, e);
  }

  /** What can happen on a rebuilt host before it restores. */
  lemma BlankEvents(cfg: Config, s: State, e: Event)
    requires Enabled(cfg, s, e) && Blank(s) && !cfg.prodSource && !e.Restored?
    ensures e.Begin? || e.WipeOut? || e.WipeDb? || e.Fail? || e.Crash?
  {
  }

  lemma BlankPhase(cfg: Config, s: State, e: Event)
    requires InPlace(cfg, s.phase, e) && (s.phase.At? ==> Rank(s.phase.stage) <= Rank(CheckDb))
    requires e.Begin? || e.WipeOut? || e.WipeDb? || e.Fail? || e.Crash?
    ensures PhaseAfter(cfg, s, e).At? ==> Rank(PhaseAfter(cfg, s, e).stage) <= Rank(CheckDb)
  {
  }

  lemma BlankStores(cfg: Config, s: State, e: Event)
    requires Enabled(cfg, s, e)
    requires e.Begin? || e.WipeOut? || e.WipeDb? || e.Fail? || e.Crash?
    ensures s.db.None? ==> DbAfter(cfg, s, e).None?
    ensures BucketAfter(cfg, s, e) == s.bucket && ClockAfter(s.clock, e) == s.clock
    ensures
      var past := PastAfter(s.past, s.phase, e);
      past.published == s.past.published && past.lastBackup == s.past.lastBackup
  {
  }

  /** Without a production source a rebuilt host does nothing to the bucket before
      it restores a backup. */
  lemma {:induction false} BlankUntilRestored(cfg: Config, s: State, trace: seq<Event>)
    requires Legal(cfg, s, trace) && Blank(s) && !cfg.prodSource && Restored !in trace
    ensures
      var t := Exec(cfg, s, trace);
      Blank(t) && t.bucket == s.bucket && t.past.published == s.past.published
      && t.past.lastBackup == s.past.lastBackup && t.clock == s.clock
    decreases |trace|
  {
    if trace != [] {
      assert trace[0] in trace;
      BlankStep(cfg, s, trace[0]);
      BlankUntilRestored(cfg, Apply(cfg, s, trace[0]), trace[1..]);
    }
  }

  function Wiped(s: State): State {
    s.(files := map[], db := None, past := s.past.(chain := []))
  }

  /** Losing OUT_DIR and the database between runs leads to the wiped state. */
  lemma WipeBoth(cfg: Config, s: State)
    requires s.phase.Idle?
    ensures Legal(cfg, s, [WipeOut, WipeDb]) && Exec(cfg, s, [WipeOut, WipeDb]) == Wiped(s)
    ensures FetchReliable(cfg, s, [WipeOut, WipeDb])
  {
    var t := Apply(cfg, s, WipeOut);
    assert [WipeOut, WipeDb][1..] == [WipeDb] && [WipeDb][1..] == [];
    assert Legal(cfg, t, [WipeDb]);
  }

  lemma {:induction false} PublishedGrows(cfg: Config, s: State, trace: seq<Event>)
    requires Legal(cfg, s, trace)
    ensures s.past.published <= Exec(cfg, s, trace).past.published
    decreases |trace|
  {
    if trace != [] {
      PublishedGrowsOne(cfg, s, trace[0]);
      PublishedGrows(cfg, Apply(cfg, s, trace[0]), trace[1..]);
    }
  }

  lemma PublishedGrowsOne(cfg: Config, s: State, e: Event)
    requires Enabled(cfg, s, e)
    ensures s.past.published <= Apply(cfg, s, e).past.published
  {
  }

  /** Disaster recovery: whatever happened before, if a backup was put and then the
      database and OUT_DIR are lost, the host publishes nothing until it restores;
      what it restores is exactly the snapshot backed up last; and every version it
      publishes afterwards exceeds every version ever published. */
  lemma DisasterRecovery(cfg: Config, s0: State, before: seq<Event>, waiting: seq<Event>, after: seq<Event>)
    requires SafePrefix(cfg.prefix) && cfg.backupKeep >= 1 && !cfg.prodSource
    requires Fresh(s0) && Legal(cfg, s0, before) && FetchReliable(cfg, s0, before)
    requires
      var s := Exec(cfg, s0, before);
      && s.phase.Idle? && s.past.lastBackup.Some?
      && Restored !in waiting
      && Legal(cfg, Wiped(s), waiting + [Restored] + after)
      && FetchReliable(cfg, Wiped(s), waiting + [Restored] + after)
    ensures
      var s := Exec(cfg, s0, before);
      && Legal(cfg, Wiped(s), waiting + [Restored])
      && var restored := Exec(cfg, Wiped(s), waiting + [Restored]);
         var end := Exec(cfg, Wiped(s), waiting + [Restored] + after);
      && restored.db == Some(s.past.lastBackup.value.snap)
      && restored.past.published == s.past.published
      && s.past.published <= end.past.published
      && (forall u, v :: u in s.past.published && v in end.past.published[|s.past.published|..] ==> u < v)
  {
    var s := Exec(cfg, s0, before);
    var w := Wiped(s);
    LegalConcat(cfg, w, waiting + [Restored], after);
    FreshInv(cfg, s0);
    BackupAlong(cfg, s0, before);
    RestoredAfterWaiting(cfg, w, waiting);
    PublishedGrows(cfg, w, waiting + [Restored] + after);
    VersionsAfterWipe(cfg, s0, before, waiting + [Restored] + after);
  }

  lemma RestoredAfterWaiting(cfg: Config, w: State, waiting: seq<Event>)
    requires Blank(w) && w.phase.Idle? && BackupInv(w) && w.past.lastBackup.Some?
    requires !cfg.prodSource && Restored !in waiting && Legal(cfg, w, waiting + [Restored])
    ensures
      var restored := Exec(cfg, w, waiting + [Restored]);
      restored.db == Some(w.past.lastBackup.value.snap) && restored.past.published == w.past.published
  {
    LegalConcat(cfg, w, waiting, [Restored]);
    BlankUntilRestored(cfg, w, waiting);
    LegalSnoc(cfg, w, waiting, Restored);
    RestoreReturnsLast(cfg, Exec(cfg, w, waiting));
  }

  lemma VersionsAfterWipe(cfg: Config, s0: State, before: seq<Event>, later: seq<Event>)
    requires SafePrefix(cfg.prefix)
    requires Fresh(s0) && Legal(cfg, s0, before) && FetchReliable(cfg, s0, before)
    requires Exec(cfg, s0, before).phase.Idle?
    requires
      var w := Wiped(Exec(cfg, s0, before));
      Legal(cfg, w, later) && FetchReliable(cfg, w, later)
    ensures Increasing(Exec(cfg, Wiped(Exec(cfg, s0, before)), later).past.published)
  {
    var s := Exec(cfg, s0, before);
    FreshInv(cfg, s0);
    InvAlong(cfg, s0, before);
    VersionAlong(cfg, s0, before);
    WipeBoth(cfg, s);
    InvAlong(cfg, s, [WipeOut, WipeDb]);
    VersionAlong(cfg, s, [WipeOut, WipeDb]);
    VersionAlong(cfg, Wiped(s), later);
  }
}
