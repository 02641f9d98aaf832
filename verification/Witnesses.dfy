/** Traces that exist: a run in which every request succeeds publishes; and the
    runs in which the program does not do what it is meant to. */
module Witnesses {
  import opened Text
  import opened Store
  import opened Names
  import opened Protocol
  import opened Safety
  import ShrinkGuard
  import Validate

  /** The events between two states. */
  ghost predicate Leads(cfg: Config, s: State, trace: seq<Event>, t: State) {
    Legal(cfg, s, trace) && Exec(cfg, s, trace) == t
  }

  lemma LeadsOn(cfg: Config, s: State, trace: seq<Event>, t: State, e: Event)
    requires Leads(cfg, s, trace, t) && Enabled(cfg, t, e)
    ensures Leads(cfg, s, trace + [e], Apply(cfg, t, e))
  {
    LegalSnoc(cfg, s, trace, e);
  }

  lemma LeadsThen(cfg: Config, s: State, a: seq<Event>, t: State, b: seq<Event>, u: State)
    requires Leads(cfg, s, a, t) && Leads(cfg, t, b, u)
    ensures Leads(cfg, s, a + b, u)
  {
    LegalConcat(cfg, s, a, b);
  }

  lemma LeadsNowhere(cfg: Config, s: State)
    ensures Leads(cfg, s, [], s)
  {
  }

  predicate HasDatabase(s: State) {
    s.db.Some? && s.db.value != []
  }

  /** What a run needs of its configuration to get as far as its index put. */
  predicate Sane(cfg: Config) {
    cfg.r2 && (cfg.fetchProd ==> cfg.prodSource)
  }

  lemma ToCheckDb(cfg: Config, s: State) returns (trace: seq<Event>, t: State)
    requires s.phase.Idle? && HasDatabase(s) && Sane(cfg)
    ensures Leads(cfg, s, trace, t) && HasDatabase(t)
    ensures t.phase == At(CheckDb, NEW_JOB)
    ensures t.files == s.files && t.bucket == s.bucket && t.past == s.past.(run := s.past.run + 1)
  {
    LeadsNowhere(cfg, s);
    LeadsOn(cfg, s, [], s, Begin);
    trace, t := [] + [Begin], Apply(cfg, s, Begin);
    if cfg.fetchProd {
      var db := s.db.value;
      LeadsOn(cfg, s, trace, t, Fetched(db));
      trace, t := trace + [Fetched(db)], Apply(cfg, t, Fetched(db));
    }
  }

  lemma ToSnapshot(cfg: Config, s: State) returns (trace: seq<Event>, t: State)
    requires s.phase.At? && s.phase.stage == CheckDb && HasDatabase(s)
    ensures Leads(cfg, s, trace, t) && HasDatabase(t)
    ensures t.phase == At(TakeSnapshot, s.phase.job)
    ensures t.files == s.files && t.bucket == s.bucket && t.past == s.past
  {
    LeadsNowhere(cfg, s);
    LeadsOn(cfg, s, [], s, Checked);
    trace, t := [] + [Checked], Apply(cfg, s, Checked);
    if cfg.sync {
      var db := s.db.value;
      LeadsOn(cfg, s, trace, t, Synced(db, true));
      trace, t := trace + [Synced(db, true)], Apply(cfg, t, Synced(db, true));
    }
  }

  /** A run begins and reaches the export, leaving files and bucket alone. */
  lemma ToGuard(cfg: Config, s: State) returns (trace: seq<Event>, t: State)
    requires s.phase.Idle? && HasDatabase(s) && Sane(cfg)
    ensures Leads(cfg, s, trace, t)
    ensures t.phase.At? && t.phase.stage == GuardExport && HasDatabase(t)
    ensures t.files == s.files && t.bucket == s.bucket && t.past == s.past.(run := s.past.run + 1)
  {
    var a, ta := ToCheckDb(cfg, s);
    var b, tb := ToSnapshot(cfg, ta);
    LeadsThen(cfg, s, a, ta, b, tb);
    LeadsOn(cfg, s, a + b, tb, Snapped);
    trace, t := a + b + [Snapped], Apply(cfg, tb, Snapped);
  }

  /** The export writes bundle and meta. */
  lemma ToReleases(cfg: Config, s: State, x: Export) returns (trace: seq<Event>, t: State)
    requires s.phase.At? && s.phase.stage == GuardExport && HasDatabase(s)
    requires !ShrinkGuard.Refuses(s.files, x.meta.counts, x.forced)
    ensures Leads(cfg, s, trace, t) && HasDatabase(t)
    ensures t.phase == At(WriteReleases, s.phase.job.(x := x))
    ensures t.files == s.files[Gz := BundleFile(x.bundle)][Meta := MetaFile(x.meta)] && t.bucket == s.bucket
    ensures t.past.published == s.past.published && t.past.run == s.past.run
  {
    var a := Next(cfg, s, Accepted(x));
    var b := GzWritten(cfg, a);
    t := MetaWritten(cfg, b);
    LeadsThen(cfg, s, [Accepted(x)], a, [Wrote], b);
    LeadsThen(cfg, s, [Accepted(x)] + [Wrote], b, [Wrote], t);
    trace := [Accepted(x)] + [Wrote] + [Wrote];
  }

  /** One event. */
  lemma Next(cfg: Config, s: State, e: Event) returns (t: State)
    requires Enabled(cfg, s, e)
    ensures t == Apply(cfg, s, e) && Leads(cfg, s, [e], t)
  {
    LeadsNowhere(cfg, s);
    LeadsOn(cfg, s, [], s, e);
    assert [] + [e] == [e];
    t := Apply(cfg, s, e);
  }

  lemma GzWritten(cfg: Config, s: State) returns (t: State)
    requires s.phase.At? && s.phase.stage == WriteGz
    ensures Leads(cfg, s, [Wrote], t)
    ensures t.phase == At(WriteMeta, s.phase.job) && t.files == s.files[Gz := BundleFile(s.phase.job.x.bundle)]
    ensures t.bucket == s.bucket && t.db == s.db && t.past == s.past
  {
    t := Next(cfg, s, Wrote);
  }

  lemma MetaWritten(cfg: Config, s: State) returns (t: State)
    requires s.phase.At? && s.phase.stage == WriteMeta
    ensures Leads(cfg, s, [Wrote], t)
    ensures t.phase == At(WriteReleases, s.phase.job) && t.files == s.files[Meta := MetaFile(s.phase.job.x.meta)]
    ensures t.bucket == s.bucket && t.db == s.db
    ensures t.past.published == s.past.published && t.past.run == s.past.run
  {
    t := Next(cfg, s, Wrote);
  }

  lemma ToReadPrevious(cfg: Config, s: State) returns (trace: seq<Event>, t: State)
    requires s.phase.At? && s.phase.stage == WriteReleases && HasDatabase(s)
    ensures Leads(cfg, s, trace, t) && HasDatabase(t)
    ensures t.phase == At(ReadPrevious, s.phase.job)
    ensures t.files == s.files && t.bucket == s.bucket && t.past == s.past
  {
    LeadsNowhere(cfg, s);
    LeadsOn(cfg, s, [], s, WroteReleases(None));
    var a := Apply(cfg, s, WroteReleases(None));
    LeadsOn(cfg, s, [] + [WroteReleases(None)], a, RemovedDelta(false));
    t := Apply(cfg, a, RemovedDelta(false));
    trace := [] + [WroteReleases(None)] + [RemovedDelta(false)];
  }

  lemma ToIndexWritten(cfg: Config, s: State, fetched: bool, url: string) returns (trace: seq<Event>, t: State)
    requires s.phase.At? && s.phase.stage == ReadPrevious && HasDatabase(s)
    ensures Leads(cfg, s, trace, t) && HasDatabase(t)
    ensures
      var job := s.phase.job;
      var index := Advance(PreviousVersion(cfg.prefix, s.files, s.bucket, fetched), job.x.meta.fullSha, url);
      && t.phase == At(CheckDir, job.(index := index))
      && t.files == s.files[Index := IndexFile(index)]
    ensures t.bucket == s.bucket && t.past == s.past
  {
    var a := Next(cfg, s, ReadIndex(fetched, url));
    t := IndexWritten(cfg, a);
    LeadsThen(cfg, s, [ReadIndex(fetched, url)], a, [Wrote], t);
    trace := [ReadIndex(fetched, url)] + [Wrote];
  }

  lemma IndexWritten(cfg: Config, s: State) returns (t: State)
    requires s.phase.At? && s.phase.stage == WriteIndex
    ensures Leads(cfg, s, [Wrote], t)
    ensures t.phase == At(CheckDir, s.phase.job) && t.files == s.files[Index := IndexFile(s.phase.job.index)]
    ensures t.bucket == s.bucket && t.db == s.db && t.past == s.past
  {
    t := Next(cfg, s, Wrote);
  }

  /** The export goes on to write the next index. */
  lemma ToCheck(cfg: Config, s: State, fetched: bool, url: string) returns (trace: seq<Event>, t: State)
    requires s.phase.At? && s.phase.stage == WriteReleases && HasDatabase(s)
    ensures Leads(cfg, s, trace, t) && HasDatabase(t)
    ensures
      var job := s.phase.job;
      var index := Advance(PreviousVersion(cfg.prefix, s.files, s.bucket, fetched), job.x.meta.fullSha, url);
      && t.phase == At(CheckDir, job.(index := index))
      && t.files == s.files[Index := IndexFile(index)]
    ensures t.bucket == s.bucket && t.past == s.past
  {
    var a, ta := ToReadPrevious(cfg, s);
    var b, tb := ToIndexWritten(cfg, ta, fetched, url);
    LeadsThen(cfg, s, a, ta, b, tb);
    trace, t := a + b, tb;
  }

  /** Validation passes, the client is made, and the bundle is put. */
  lemma ToPutMeta(cfg: Config, s: State) returns (trace: seq<Event>, t: State)
    requires s.phase.At? && s.phase.stage == CheckDir && HasDatabase(s)
    requires Validate.ValidDir(s.files) && Gz in s.files && cfg.r2
    ensures Leads(cfg, s, trace, t) && HasDatabase(t)
    ensures t.phase == At(PutMeta, s.phase.job) && t.files == s.files
    ensures t.bucket == s.bucket[LiveKey(cfg.prefix, Gz) := s.files[Gz]]
    ensures t.past.published == s.past.published && t.past.dirty && t.past.run == s.past.run
  {
    var a := Next(cfg, s, Validated);
    var b := ClientMade(cfg, a);
    t := GzPut(cfg, b);
    LeadsThen(cfg, s, [Validated], a, [Connected], b);
    LeadsThen(cfg, s, [Validated] + [Connected], b, [Put(false)], t);
    trace := [Validated] + [Connected] + [Put(false)];
  }

  lemma ClientMade(cfg: Config, s: State) returns (t: State)
    requires s.phase.At? && s.phase.stage == Connect && cfg.r2
    ensures Leads(cfg, s, [Connected], t)
    ensures t.phase == At(PutGz, s.phase.job) && t.files == s.files && t.db == s.db && t.bucket == s.bucket
    ensures t.past == s.past
  {
    t := Next(cfg, s, Connected);
  }

  lemma GzPut(cfg: Config, s: State) returns (t: State)
    requires s.phase.At? && s.phase.stage == PutGz && Gz in s.files
    ensures Leads(cfg, s, [Put(false)], t)
    ensures t.phase == At(PutMeta, s.phase.job) && t.files == s.files && t.db == s.db
    ensures t.bucket == s.bucket[LiveKey(cfg.prefix, Gz) := s.files[Gz]]
    ensures t.past.published == s.past.published && t.past.dirty && t.past.run == s.past.run
  {
    t := Next(cfg, s, Put(false));
  }

  lemma MetaPut(cfg: Config, s: State) returns (t: State)
    requires s.phase.At? && s.phase.stage == PutMeta && Meta in s.files
    ensures Leads(cfg, s, [Put(false)], t)
    ensures t.phase == At(DropDelta, s.phase.job) && t.files == s.files && t.db == s.db && t.past == s.past
    ensures t.bucket == s.bucket[LiveKey(cfg.prefix, Meta) := s.files[Meta]]
  {
    t := Next(cfg, s, Put(false));
  }

  lemma ToPutIndex(cfg: Config, s: State) returns (trace: seq<Event>, t: State)
    requires s.phase.At? && s.phase.stage == PutMeta && HasDatabase(s) && Meta in s.files
    ensures Leads(cfg, s, trace, t) && HasDatabase(t)
    ensures t.phase == At(PutIndex, s.phase.job) && t.files == s.files && t.past == s.past
    ensures t.bucket == s.bucket[LiveKey(cfg.prefix, Meta) := s.files[Meta]]
  {
    var a := MetaPut(cfg, s);
    t := Next(cfg, a, DroppedDelta(false));
    LeadsThen(cfg, s, [Put(false)], a, [DroppedDelta(false)], t);
    trace := [Put(false)] + [DroppedDelta(false)];
  }

  /** The index is put. */
  lemma ToPublished(cfg: Config, s: State) returns (t: State)
    requires s.phase.At? && s.phase.stage == PutIndex && HasDatabase(s) && Index in s.files
    ensures Leads(cfg, s, [Put(false)], t) && HasDatabase(t)
    ensures t.phase.At? && t.files == s.files
    ensures t.bucket == s.bucket[LiveKey(cfg.prefix, Index) := s.files[Index]]
    ensures t.past.published == s.past.published + [s.phase.job.index.version]
  {
    LeadsNowhere(cfg, s);
    LeadsOn(cfg, s, [], s, Put(false));
    t := Apply(cfg, s, Put(false));
    assert [] + [Put(false)] == [Put(false)];
  }

  /** The process stops. */
  lemma ToStop(cfg: Config, s: State, trace: seq<Event>, t: State) returns (u: State)
    requires Leads(cfg, s, trace, t) && t.phase.At? && HasDatabase(t)
    ensures Leads(cfg, s, trace + [Crash], u)
    ensures u.phase == Idle && u.files == t.files && u.bucket == t.bucket && u.db == t.db
    ensures u.past.published == t.past.published && u.past.dirty == t.past.dirty
  {
    LeadsOn(cfg, s, trace, t, Crash);
    u := Apply(cfg, t, Crash);
  }

  /** An export whose artifacts pass validation, with a checksum. */
  predicate Good(x: Export, url: string) {
    && Validate.BundleOk(BundleFile(x.bundle))
    && x.meta.fullSha == DigestOf(BundleFile(x.bundle))
    && Contains(url, FileName(Gz))
  }

  /** A run up to validation, leaving the bucket alone. */
  lemma ExportRun(cfg: Config, s: State, x: Export, fetched: bool, url: string) returns (trace: seq<Event>, t: State)
    requires s.phase.Idle? && HasDatabase(s) && Sane(cfg)
    requires !ShrinkGuard.Refuses(s.files, x.meta.counts, x.forced)
    ensures Leads(cfg, s, trace, t) && HasDatabase(t)
    ensures t.phase.At? && t.phase.stage == CheckDir && t.phase.job.x == x
    ensures
      var index := Advance(PreviousVersion(cfg.prefix, s.files, s.bucket, fetched), x.meta.fullSha, url);
      && t.phase.job.index == index
      && t.files == s.files[Gz := BundleFile(x.bundle)][Meta := MetaFile(x.meta)][Index := IndexFile(index)]
    ensures t.bucket == s.bucket && t.past.published == s.past.published
  {
    var a, ta := ToGuard(cfg, s);
    var b, tb := ToReleases(cfg, ta, x);
    var c, tc := ToCheck(cfg, tb, fetched, url);
    LeadsThen(cfg, s, a, ta, b, tb);
    LeadsThen(cfg, s, a + b, tb, c, tc);
    trace, t := a + b + c, tc;
    SamePrevious(cfg, s.files, tb.files, s.bucket, fetched);
  }

  lemma SamePrevious(cfg: Config, before: Files, after: Files, bucket: Objects, fetched: bool)
    requires Index in before <==> Index in after
    requires Index in before ==> before[Index] == after[Index]
    ensures PreviousVersion(cfg.prefix, before, bucket, fetched) == PreviousVersion(cfg.prefix, after, bucket, fetched)
  {
  }

  /** A run in which everything succeeds up to the index put publishes the previous
      version plus one; the process then stops. */
  lemma PublishingRun(cfg: Config, s: State, x: Export, fetched: bool, url: string)
      returns (trace: seq<Event>, t: State)
    requires SafePrefix(cfg.prefix) && Sane(cfg) && s.phase.Idle? && HasDatabase(s)
    requires !ShrinkGuard.Refuses(s.files, x.meta.counts, x.forced) && Good(x, url)
    ensures Leads(cfg, s, trace, t) && t.phase.Idle? && HasDatabase(t)
    ensures t.past.published == s.past.published + [PreviousVersion(cfg.prefix, s.files, s.bucket, fetched) + 1]
    ensures Live(cfg, t.bucket, Gz) == Some(BundleFile(x.bundle))
    ensures Live(cfg, t.bucket, Meta) == Some(MetaFile(x.meta))
    ensures Meta in t.files && t.files[Meta] == MetaFile(x.meta)
  {
    var a, ta := ExportRun(cfg, s, x, fetched, url);
    var b, tb := UploadRun(cfg, ta);
    LeadsThen(cfg, s, a, ta, b, tb);
    t := ToStop(cfg, s, a + b, tb);
    trace := a + b + [Crash];
    ThreePuts(cfg, s.bucket, t.files, t.bucket);
  }

  /** From validation to the index put. */
  lemma UploadRun(cfg: Config, s: State) returns (trace: seq<Event>, t: State)
    requires s.phase.At? && s.phase.stage == CheckDir && HasDatabase(s) && cfg.r2
    requires Validate.ValidDir(s.files) && Gz in s.files && Meta in s.files && Index in s.files
    ensures Leads(cfg, s, trace, t) && HasDatabase(t) && t.phase.At? && t.files == s.files
    ensures t.bucket == s.bucket[LiveKey(cfg.prefix, Gz) := s.files[Gz]][LiveKey(cfg.prefix, Meta) := s.files[Meta]]
                                [LiveKey(cfg.prefix, Index) := s.files[Index]]
    ensures t.past.published == s.past.published + [s.phase.job.index.version]
  {
    var a, ta := ToPutMeta(cfg, s);
    var b, tb := ToPutIndex(cfg, ta);
    t := ToPublished(cfg, tb);
    LeadsThen(cfg, s, a, ta, b, tb);
    LeadsThen(cfg, s, a + b, tb, [Put(false)], t);
    trace := a + b + [Put(false)];
  }

  lemma ThreePuts(cfg: Config, before: Objects, files: Files, after: Objects)
    requires Gz in files && Meta in files && Index in files
    requires after == before[LiveKey(cfg.prefix, Gz) := files[Gz]][LiveKey(cfg.prefix, Meta) := files[Meta]]
                            [LiveKey(cfg.prefix, Index) := files[Index]]
    ensures Live(cfg, after, Gz) == Some(files[Gz]) && Live(cfg, after, Meta) == Some(files[Meta])
  {
    LiveKeysDistinct(cfg.prefix, Gz, Meta);
    LiveKeysDistinct(cfg.prefix, Gz, Index);
    LiveKeysDistinct(cfg.prefix, Meta, Index);
  }

  /** Without the live fetch a lost OUT_DIR restarts numbering: whatever was live
      before, the next publish is version 1, and versions no longer increase. */
  lemma RegressionWithoutFetch(cfg: Config, s: State, x: Export, url: string) returns (trace: seq<Event>, t: State)
    requires SafePrefix(cfg.prefix) && Sane(cfg) && s.phase.Idle? && HasDatabase(s) && Good(x, url)
    requires VersionInv(cfg, s) && LiveVersion(cfg.prefix, s.bucket) >= 1
    ensures Leads(cfg, s, trace, t)
    ensures t.past.published == s.past.published + [1]
    ensures !Increasing(t.past.published)
  {
    var w := Apply(cfg, s, WipeOut);
    LeadsNowhere(cfg, s);
    LeadsOn(cfg, s, [], s, WipeOut);
    var b, tb := PublishingRun(cfg, w, x, false, url);
    LeadsThen(cfg, s, [] + [WipeOut], w, b, tb);
    trace, t := [] + [WipeOut] + b, tb;
    var n := |s.past.published|;
    assert t.past.published[n - 1] == LiveVersion(cfg.prefix, s.bucket);
    assert t.past.published[n] == 1;
  }

  /** The guard compares with the last export, not with the last publish: an export
      that is accepted but not published moves the baseline, so that two unforced
      runs shrink the published counts from 100 to 57. */
  lemma UnpublishedExportEscapesGuard(cfg: Config, s: State, x: Export, y: Export, url: string)
      returns (trace: seq<Event>, t: State)
    requires SafePrefix(cfg.prefix) && Sane(cfg) && s.phase.Idle? && HasDatabase(s) && Good(y, url)
    requires Meta in s.files && s.files[Meta].MetaFile? && s.files[Meta].meta.counts == Counts(100, 100, 100)
    requires x.meta.counts == Counts(75, 75, 75) && y.meta.counts == Counts(57, 57, 57)
    requires Live(cfg, s.bucket, Meta) == Some(s.files[Meta])
    ensures Leads(cfg, s, trace, t)
    ensures Live(cfg, t.bucket, Meta) == Some(MetaFile(y.meta))
    ensures ShrinkGuard.Breaches(s.files[Meta].meta.counts, y.meta.counts)
  {
    assert !ShrinkGuard.Collapsed(100, 75) && !ShrinkGuard.Collapsed(75, 57) && ShrinkGuard.Collapsed(100, 57);
    var a, ta := ExportRun(cfg, s, x, true, url);
    var u := ToStop(cfg, s, a, ta);
    var b, tb := PublishingRun(cfg, u, y, true, url);
    LeadsThen(cfg, s, a + [Crash], u, b, tb);
    trace, t := a + [Crash] + b, tb;
  }

  /** The window in which the live pair disagrees can outlast a failed run: after a
      crash between bundle put and index put, the old index does not name the new
      bundle, and the publisher is idle. */
  lemma WindowOutlastsFailedRun(cfg: Config, s: State, x: Export, url: string) returns (trace: seq<Event>, t: State)
    requires SafePrefix(cfg.prefix) && Sane(cfg) && s.phase.Idle? && HasDatabase(s) && Good(x, url)
    requires !ShrinkGuard.Refuses(s.files, x.meta.counts, x.forced)
    requires Live(cfg, s.bucket, Index).Some? && Live(cfg, s.bucket, Index).value.IndexFile?
    requires Live(cfg, s.bucket, Index).value.index.fullSha != x.meta.fullSha
    ensures Leads(cfg, s, trace, t) && t.phase.Idle? && t.past.dirty
    ensures Live(cfg, t.bucket, Index) == Live(cfg, s.bucket, Index)
    ensures Live(cfg, t.bucket, Gz) == Some(BundleFile(x.bundle))
    ensures Live(cfg, t.bucket, Index).value.index.fullSha != DigestOf(Live(cfg, t.bucket, Gz).value)
  {
    var a, ta := ExportRun(cfg, s, x, true, url);
    var b, tb := ToPutMeta(cfg, ta);
    LeadsThen(cfg, s, a, ta, b, tb);
    t := ToStop(cfg, s, a + b, tb);
    trace := a + b + [Crash];
    LiveKeysDistinct(cfg.prefix, Gz, Index);
  }
}
