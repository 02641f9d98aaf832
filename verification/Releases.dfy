/** updateManifestReleases: the release history as an ordered last-write-wins map. */
module Releases {
  import opened Text
  import opened Store

  datatype Key = Key(exportedAt: string, kind: string)

  function KeyOf(e: Release): Key {
    Key(e.exportedAt, e.kind)
  }

  /** The text fields trimmed; a digest has no surrounding space to trim. */
  function Trimmed(e: Release): Release {
    Release(Trim(e.kind), Trim(e.exportedAt), Trim(e.fullExportedAt), e.sha)
  }

  /** The position of the first entry with key k, or the length. */
  function Position(doc: seq<Release>, k: Key): (i: nat)
    ensures i <= |doc|
    ensures i < |doc| ==> KeyOf(doc[i]) == k
    ensures forall j :: 0 <= j < i ==> KeyOf(doc[j]) != k
  {
    if doc == [] || KeyOf(doc[0]) == k then 0 else 1 + Position(doc[1..], k)
  }

  function Upsert(doc: seq<Release>, e: Release): seq<Release> {
    var i := Position(doc, KeyOf(e));
    if i < |doc| then doc[i := e] else doc + [e]
  }

  /** What the file holds; one that is absent or does not parse counts as empty. */
  function Entries(files: Files): seq<Release> {
    if Releases in files && files[Releases].ReleasesFile? then files[Releases].releases else []
  }

  /** The update loop with its replaced flag. */
  method UpdateManifestReleases(files: Files, added: Release) returns (doc: seq<Release>)
    ensures doc == Upsert(Entries(files), Trimmed(added))
    ensures
      var before := if Releases in files && files[Releases].ReleasesFile? then files[Releases].releases else [];
      IsUpdated(before, Release(Trim(added.kind), Trim(added.exportedAt), Trim(added.fullExportedAt), added.sha), doc)
  {
    doc := Entries(files);
    var entry := Trimmed(added);
    var replaced := false;
    var i := 0;
    while i < |doc|
      invariant 0 <= i <= |doc|
      invariant doc == Entries(files) && !replaced
      invariant forall j :: 0 <= j < i ==> KeyOf(doc[j]) != KeyOf(entry)
    {
      if doc[i].exportedAt == entry.exportedAt && doc[i].kind == entry.kind {
        PositionIs(doc, KeyOf(entry), i);
        doc := doc[i := entry];
        replaced := true;
        break;
      }
      i := i + 1;
    }
    if !replaced {
      PositionIs(doc, KeyOf(entry), |doc|);
      doc := doc + [entry];
    }
    UpsertUpdates(Entries(files), entry);
  }

  /** doc is before with the entry e written: in place of one of the same kind and export
      time, or at the end if there is none; all else as it was. */
  predicate IsUpdated(before: seq<Release>, e: Release, doc: seq<Release>) {
    && e in doc && |before| <= |doc| <= |before| + 1
    && (|doc| == |before| <==>
          exists i :: 0 <= i < |before| && before[i].kind == e.kind && before[i].exportedAt == e.exportedAt)
    && (forall i :: 0 <= i < |before| && !(before[i].kind == e.kind && before[i].exportedAt == e.exportedAt) ==>
          doc[i] == before[i])
    && (|doc| > |before| ==> doc[|before|] == e)
  }

  lemma UpsertUpdates(doc: seq<Release>, e: Release)
    ensures IsUpdated(doc, e, Upsert(doc, e))
  {
    var i, next := Position(doc, KeyOf(e)), Upsert(doc, e);
    assert i < |next| && next[i] == e;
    assert forall j :: 0 <= j < |doc| ==>
             (KeyOf(doc[j]) == KeyOf(e) <==> doc[j].kind == e.kind && doc[j].exportedAt == e.exportedAt);
  }

  lemma PositionIs(doc: seq<Release>, k: Key, i: nat)
    requires i <= |doc| && (i < |doc| ==> KeyOf(doc[i]) == k)
    requires forall j :: 0 <= j < i ==> KeyOf(doc[j]) != k
    ensures Position(doc, k) == i
  {
    var p := Position(doc, k);
    assert !(p < i) && !(i < p);
  }

  /** The history after writing the entries, in order, to an empty document. */
  function History(written: seq<Release>): seq<Release> {
    if written == [] then []
    else Upsert(History(written[..|written| - 1]), written[|written| - 1])
  }

  function TrimmedAll(added: seq<Release>): (r: seq<Release>)
    ensures |r| == |added|
  {
    seq(|added|, i requires 0 <= i < |added| => Trimmed(added[i]))
  }

  // ---- what the history holds ---------------------------------------------

  /** The position of the last entry with key k, or the length. */
  function LastPosition(es: seq<Release>, k: Key): (i: nat)
    ensures i <= |es|
    ensures i < |es| ==> KeyOf(es[i]) == k
    ensures forall j :: 0 <= j < |es| && (i < j || i == |es|) ==> KeyOf(es[j]) != k
  {
    if es == [] then 0
    else if KeyOf(es[|es| - 1]) == k then |es| - 1
    else
      var i := LastPosition(es[..|es| - 1], k);
      if i == |es| - 1 then |es| else i
  }

  /** doc holds the entry written last under each key, each key once and in the
      order in which the keys were first written. */
  ghost predicate LastWriteWins(doc: seq<Release>, written: seq<Release>) {
    && (forall e :: e in written ==> Position(doc, KeyOf(e)) < |doc|)
    && (forall d :: d in doc ==>
          LastPosition(written, KeyOf(d)) < |written| && d == written[LastPosition(written, KeyOf(d))])
    && (forall i, j :: 0 <= i < j < |doc| ==>
          Position(written, KeyOf(doc[i])) < Position(written, KeyOf(doc[j])))
  }

  lemma PositionAppend(es: seq<Release>, e: Release, k: Key)
    ensures Position(es + [e], k) ==
            if Position(es, k) < |es| then Position(es, k) else if KeyOf(e) == k then |es| else |es| + 1
  {
    var p := Position(es, k);
    PositionIs(es + [e], k, if p < |es| then p else if KeyOf(e) == k then |es| else |es| + 1);
  }

  lemma LastPositionAppend(es: seq<Release>, e: Release, k: Key)
    ensures LastPosition(es + [e], k) ==
            if KeyOf(e) == k then |es|
            else if LastPosition(es, k) < |es| then LastPosition(es, k) else |es| + 1
  {
    assert (es + [e])[..|es|] == es;
  }

  lemma OccursBoth(es: seq<Release>, k: Key)
    ensures Position(es, k) < |es| <==> LastPosition(es, k) < |es|
  {
  }

  /** The release history is an ordered last-write-wins map, for any updates. */
  lemma {:induction false} HistoryIsLastWriteWins(written: seq<Release>)
    ensures LastWriteWins(History(written), written)
  {
    if written != [] {
      var n := |written| - 1;
      var before, e := written[..n], written[n];
      HistoryIsLastWriteWins(before);
      assert written == before + [e];
      UpsertStep(History(before), before, e);
    }
  }

  lemma UpsertStep(doc: seq<Release>, written: seq<Release>, e: Release)
    requires LastWriteWins(doc, written)
    ensures LastWriteWins(Upsert(doc, e), written + [e])
  {
    var next := Upsert(doc, e);
    forall x | x in written + [e] ensures Position(next, KeyOf(x)) < |next| {
      UpsertKeepsKeys(doc, e, KeyOf(x));
    }
    forall d | d in next
      ensures LastPosition(written + [e], KeyOf(d)) < |written| + 1
      ensures d == (written + [e])[LastPosition(written + [e], KeyOf(d))]
    {
      LastPositionAppend(written, e, KeyOf(d));
      UpsertMembers(doc, written, e, d);
    }
    forall i, j | 0 <= i < j < |next|
      ensures Position(written + [e], KeyOf(next[i])) < Position(written + [e], KeyOf(next[j]))
    {
      UpsertOrder(doc, written, e, i, j);
    }
  }

  lemma UpsertOrder(doc: seq<Release>, written: seq<Release>, e: Release, i: nat, j: nat)
    requires LastWriteWins(doc, written) && i < j < |Upsert(doc, e)|
    ensures Position(written + [e], KeyOf(Upsert(doc, e)[i])) < Position(written + [e], KeyOf(Upsert(doc, e)[j]))
  {
    var next := Upsert(doc, e);
    UpsertKeyAt(doc, e, i);
    UpsertKeyAt(doc, e, j);
    PositionAppend(written, e, KeyOf(next[i]));
    PositionAppend(written, e, KeyOf(next[j]));
    MemberPosition(doc, written, i);
    if j < |doc| {
      MemberPosition(doc, written, j);
    }
  }

  lemma MemberPosition(doc: seq<Release>, written: seq<Release>, i: nat)
    requires LastWriteWins(doc, written) && i < |doc|
    ensures Position(written, KeyOf(doc[i])) < |written|
  {
    assert doc[i] in doc;
    OccursBoth(written, KeyOf(doc[i]));
  }

  lemma UpsertKeepsKeys(doc: seq<Release>, e: Release, k: Key)
    requires Position(doc, k) < |doc| || k == KeyOf(e)
    ensures Position(Upsert(doc, e), k) < |Upsert(doc, e)|
  {
    var next := Upsert(doc, e);
    var p := Position(doc, k);
    assert KeyOf(next[p]) == k;
  }

  lemma UpsertKeyAt(doc: seq<Release>, e: Release, i: nat)
    requires i < |Upsert(doc, e)|
    ensures i < |doc| ==> KeyOf(Upsert(doc, e)[i]) == KeyOf(doc[i])
    ensures i == |doc| ==> Upsert(doc, e)[i] == e && Position(doc, KeyOf(e)) == |doc|
    ensures i <= |doc|
  {
  }

  /** A member of the updated document is the new entry or an old one of another key. */
  lemma UpsertMembers(doc: seq<Release>, written: seq<Release>, e: Release, d: Release)
    requires LastWriteWins(doc, written) && d in Upsert(doc, e)
    ensures d == e || (d in doc && KeyOf(d) != KeyOf(e))
  {
    var next := Upsert(doc, e);
    var i :| 0 <= i < |next| && next[i] == d;
    var at := Position(doc, KeyOf(e));
    assert at < i < |doc| ==> Position(written, KeyOf(doc[at])) < Position(written, KeyOf(doc[i]));
  }

  /** The same for the program's updates, which trim each entry first: keys are
      unique, in first-insertion order, and hold the last entry written. */
  lemma ReleaseHistory(added: seq<Release>)
    ensures LastWriteWins(History(TrimmedAll(added)), TrimmedAll(added))
    ensures
      var doc := History(TrimmedAll(added));
      forall i, j :: 0 <= i < j < |doc| ==> KeyOf(doc[i]) != KeyOf(doc[j])
  {
    HistoryIsLastWriteWins(TrimmedAll(added));
    var doc := History(TrimmedAll(added));
    forall i, j | 0 <= i < j < |doc| ensures KeyOf(doc[i]) != KeyOf(doc[j]) {
      assert Position(TrimmedAll(added), KeyOf(doc[i])) < Position(TrimmedAll(added), KeyOf(doc[j]));
    }
  }
}
