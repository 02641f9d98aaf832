/** validate.Dir: the check of the artifacts before they are uploaded. */
module Validate {
  import opened Text
  import opened Store

  datatype Problem =
    | IndexUnparsable | IndexVersion | IndexSha | IndexUrl
    | BundleNotGzip | BundleNotJson | BundleSchema
    | RowGameId(row: nat) | RowPlatform(row: nat) | RowEmptyPath(row: nat) | RowTraversal(row: nat)
    | MetaUnparsable | MetaSha
    | IndexMissing

  // ---- path templates -----------------------------------------------------

  predicate IsSeparator(c: char) {
    c == '/' || c == '\\'
  }

  /** strings.ReplaceAll(s, "\\", "/"). */
  function Slashes(s: string): (r: string)
    ensures |r| == |s|
    ensures forall i :: 0 <= i < |s| ==> r[i] == if s[i] == '\\' then '/' else s[i]
  {
    seq(|s|, i requires 0 <= i < |s| => if IsSeparator(s[i]) then '/' else s[i])
  }

  /** strings.Split(s, "/"). */
  function Split(s: string): seq<string>
    decreases |s|
  {
    var i := IndexOf(s, '/');
    if i == |s| then [s] else [s[..i]] + Split(s[i + 1..])
  }

  /** A ".." that fills the whole stretch between two separators. */
  predicate ClimbsAt(s: string, j: nat) {
    && j + 2 <= |s|
    && s[j] == '.' && s[j + 1] == '.'
    && (j == 0 || s[j - 1] == '/' || s[j - 1] == '\\')
    && (j + 2 == |s| || s[j + 2] == '/' || s[j + 2] == '\\')
  }

  /** Some component of the path, under either separator, is "..". */
  predicate Climbs(s: string) {
    exists j :: 0 <= j < |s| && ClimbsAt(s, j)
  }

  lemma {:induction false} SplitFindsClimb(s: string)
    requires '\\' !in s
    ensures ".." in Split(s) <==> Climbs(s)
    decreases |s|
  {
    var i := IndexOf(s, '/');
    if i == |s| {
      WholeComponent(s);
    } else {
      var rest := s[i + 1..];
      SplitFindsClimb(rest);
      assert ".." in Split(s) <==> s[..i] == ".." || ".." in Split(rest);
      ClimbsInRest(s, i);
    }
  }

  /** A path climbs in its first component or in the rest. */
  lemma ClimbsInRest(s: string, i: nat)
    requires i == IndexOf(s, '/') && i < |s| && '\\' !in s
    ensures Climbs(s) <==> s[..i] == ".." || Climbs(s[i + 1..])
  {
    var rest := s[i + 1..];
    FirstComponent(s, i);
    if Climbs(rest) {
      var j :| 0 <= j < |rest| && ClimbsAt(rest, j);
      assert ClimbsAt(s, i + 1 + j);
    }
    if Climbs(s) && s[..i] != ".." {
      var j :| 0 <= j < |s| && ClimbsAt(s, j);
      NoClimbInFirst(s, i, j);
      assert ClimbsAt(rest, j - (i + 1));
    }
  }

  lemma WholeComponent(s: string)
    requires '/' !in s && '\\' !in s
    ensures s == ".." <==> Climbs(s)
  {
    assert forall k :: 0 <= k < |s| ==> s[k] in s && !IsSeparator(s[k]);
    if Climbs(s) {
      var j :| 0 <= j < |s| && ClimbsAt(s, j);
      assert j == 0 && s == [s[0], s[1]];
    }
    if s == ".." {
      assert ClimbsAt(s, 0);
    }
  }

  lemma FirstComponent(s: string, i: nat)
    requires i == IndexOf(s, '/') && i < |s|
    ensures s[..i] == ".." ==> Climbs(s)
  {
    if s[..i] == ".." {
      assert s[0] == s[..i][0] && s[1] == s[..i][1];
      assert ClimbsAt(s, 0);
    }
  }

  lemma NoClimbInFirst(s: string, i: nat, j: nat)
    requires i == IndexOf(s, '/') && i < |s| && '\\' !in s
    requires ClimbsAt(s, j) && s[..i] != ".."
    ensures j > i
  {
    assert forall k :: 0 <= k < i ==> s[..i][k] == s[k];
    assert forall k :: 0 <= k < i ==> !IsSeparator(s[k]);
    assert i == 2 ==> s[..i] == [s[0], s[1]];
  }

  /** The split test of validateBundle rejects a template exactly when one of its
      components is "..", whichever separator surrounds it. */
  lemma SplitTestExact(s: string)
    ensures ".." in Split(Slashes(s)) <==> Climbs(s)
  {
    var t := Slashes(s);
    SplitFindsClimb(t);
    assert forall j :: 0 <= j < |s| ==> (ClimbsAt(s, j) <==> ClimbsAt(t, j));
  }

  // ---- rows ---------------------------------------------------------------

  /** strings.ToLower, of ASCII letters. */
  function Lower(s: string): (r: string)
    ensures |r| == |s|
    ensures forall i :: 0 <= i < |s| && 'A' <= s[i] <= 'Z' ==> r[i] as int == s[i] as int + 32
    ensures forall i :: 0 <= i < |s| && !('A' <= s[i] <= 'Z') ==> r[i] == s[i]
  {
    seq(|s|, i requires 0 <= i < |s| => if 'A' <= s[i] <= 'Z' then s[i] - 'A' + 'a' else s[i])
  }

  const KNOWN_PLATFORMS: set<string> := {"windows", "linux", "mac", "macos", "dos", ""}

  predicate RowOk(r: Row) {
    && Trim(r.gameId) != ""
    && Lower(r.platform) in KNOWN_PLATFORMS
    && Trim(r.pathTemplate) != ""
    && !Climbs(r.pathTemplate)
  }

  /** What makes a row acceptable, spelled out. */
  lemma RowOkMeans(r: Row)
    ensures RowOk(r) <==>
      && !AllSpace(r.gameId)
      && (var p := Lower(r.platform);
          p == "windows" || p == "linux" || p == "mac" || p == "macos" || p == "dos" || p == "")
      && !AllSpace(r.pathTemplate)
      && !Climbs(r.pathTemplate)
  {
    TrimsToNothing(r.gameId);
    TrimsToNothing(r.pathTemplate);
    KnownPlatforms(Lower(r.platform));
  }

  lemma KnownPlatforms(p: string)
    ensures p in KNOWN_PLATFORMS <==>
            p == "windows" || p == "linux" || p == "mac" || p == "macos" || p == "dos" || p == ""
  {
  }

  predicate BundleOk(c: Content) {
    && c.BundleFile? && c.bundle.decoded.Document?
    && (c.bundle.decoded.schemaVersion == 1 || c.bundle.decoded.schemaVersion == 2)
    && RowsOk(c.bundle.decoded.rows, |c.bundle.decoded.rows|)
  }

  predicate RowProblem(p: Problem) {
    p.RowGameId? || p.RowPlatform? || p.RowEmptyPath? || p.RowTraversal?
  }

  predicate BundleProblem(p: Problem) {
    p.BundleNotGzip? || p.BundleNotJson? || p.BundleSchema? || RowProblem(p)
  }

  predicate IndexProblem(p: Problem) {
    p.IndexUnparsable? || p.IndexVersion? || p.IndexSha? || p.IndexUrl?
  }

  predicate MetaProblem(p: Problem) {
    p.MetaUnparsable? || p.MetaSha?
  }

  /** The first check that a row fails, in order: game, platform, path, traversal. */
  predicate IsFirstProblem(row: Row, i: nat, r: Option<Problem>) {
    if AllSpace(row.gameId) then r == Some(RowGameId(i))
    else if Lower(row.platform) !in KNOWN_PLATFORMS then r == Some(RowPlatform(i))
    else if AllSpace(row.pathTemplate) then r == Some(RowEmptyPath(i))
    else if Climbs(row.pathTemplate) then r == Some(RowTraversal(i))
    else r == None
  }

  /** The checks of one row, in order. */
  method CheckRow(row: Row, i: nat) returns (r: Option<Problem>)
    ensures IsFirstProblem(row, i, r)
  {
    TrimsToNothing(row.gameId);
    TrimsToNothing(row.pathTemplate);
    if Trim(row.gameId) == "" { return Some(RowGameId(i)); }
    if Lower(row.platform) !in KNOWN_PLATFORMS { return Some(RowPlatform(i)); }
    if Trim(row.pathTemplate) == "" { return Some(RowEmptyPath(i)); }
    SplitTestExact(row.pathTemplate);
    if ".." in Split(Slashes(row.pathTemplate)) { return Some(RowTraversal(i)); }
    r := None;
  }

  method ValidateRow(row: Row, i: nat) returns (r: Option<Problem>)
    ensures r.None? <==> RowOk(row)
    ensures r.Some? ==> RowProblem(r.value) && r.value.row == i
  {
    TrimsToNothing(row.gameId);
    TrimsToNothing(row.pathTemplate);
    r := CheckRow(row, i);
  }

  /** The row loop: the first row that is not acceptable, if any. */
  method ValidateRows(rows: seq<Row>) returns (r: Option<Problem>)
    ensures r.None? <==> RowsOk(rows, |rows|)
    ensures r.Some? ==>
              && RowProblem(r.value) && r.value.row < |rows| && !RowOk(rows[r.value.row])
              && RowsOk(rows, r.value.row)
  {
    var i := 0;
    while i < |rows|
      invariant 0 <= i <= |rows| && RowsOk(rows, i)
    {
      r := ValidateRow(rows[i], i);
      if r.Some? {
        NotAllOk(rows, i);
        return;
      }
      MoreOk(rows, i);
      i := i + 1;
    }
    r := None;
  }

  /** The first n rows are acceptable. */
  predicate RowsOk(rows: seq<Row>, n: nat)
    requires n <= |rows|
  {
    forall k :: 0 <= k < n ==> RowOk(rows[k])
  }

  lemma NotAllOk(rows: seq<Row>, i: nat)
    requires i < |rows| && !RowOk(rows[i])
    ensures !RowsOk(rows, |rows|)
  {
  }

  lemma MoreOk(rows: seq<Row>, i: nat)
    requires i < |rows| && RowsOk(rows, i) && RowOk(rows[i])
    ensures RowsOk(rows, i + 1)
  {
  }

  /** validateBundle. */
  method ValidateBundle(c: Content) returns (r: Option<Problem>)
    ensures r.None? <==> BundleOk(c)
    ensures r.Some? ==> BundleProblem(r.value)
    ensures r == Some(BundleNotGzip) <==> !c.BundleFile? || c.bundle.decoded.NotGzip?
    ensures r == Some(BundleNotJson) <==> c.BundleFile? && c.bundle.decoded.NotJson?
    ensures r == Some(BundleSchema) <==>
            && c.BundleFile? && c.bundle.decoded.Document?
            && c.bundle.decoded.schemaVersion != 1 && c.bundle.decoded.schemaVersion != 2
  {
    if !c.BundleFile? { return Some(BundleNotGzip); }
    match c.bundle.decoded {
      case NotGzip => return Some(BundleNotGzip);
      case NotJson => return Some(BundleNotJson);
      case Document(schema, rows) =>
        if schema != 1 && schema != 2 { return Some(BundleSchema); }
        r := ValidateRows(rows);
    }
  }

  // ---- index, meta and the directory --------------------------------------

  predicate IndexOk(files: Files)
    requires Index in files
  {
    && files[Index].IndexFile?
    && var doc := files[Index].index;
    && doc.fullVersion == doc.version
    && (doc.fullSha == NoDigest || Gz !in files || doc.fullSha == DigestOf(files[Gz]))
    && Contains(doc.url, FileName(Gz))
  }

  predicate MetaOk(files: Files) {
    Meta in files ==>
      && files[Meta].MetaFile?
      && var doc := files[Meta].meta;
      || doc.gsbsVersion == "pending"
      || doc.fullSha == NoDigest || Gz !in files || doc.fullSha == DigestOf(files[Gz])
  }

  /** validateIndex. */
  method ValidateIndex(files: Files) returns (r: Option<Problem>)
    requires Index in files
    ensures r.None? <==> IndexOk(files)
    ensures r.Some? ==> IndexProblem(r.value)
    ensures r == Some(IndexUnparsable) <==> !files[Index].IndexFile?
    ensures r == Some(IndexVersion) <==>
            files[Index].IndexFile? && files[Index].index.fullVersion != files[Index].index.version
    ensures r == Some(IndexSha) ==>
            && files[Index].IndexFile? && Gz in files && files[Index].index.fullSha != NoDigest
            && files[Index].index.fullSha != DigestOf(files[Gz])
    ensures r == Some(IndexUrl) ==> files[Index].IndexFile? && !Contains(files[Index].index.url, "manifest.json.gz")
  {
    if !files[Index].IndexFile? { return Some(IndexUnparsable); }
    var doc := files[Index].index;
    if doc.fullVersion != doc.version { return Some(IndexVersion); }
    if doc.fullSha != NoDigest {
      var got := FileSha(files, Gz);
      if got != NoDigest && got != doc.fullSha { return Some(IndexSha); }
    }
    if !Contains(doc.url, FileName(Gz)) { return Some(IndexUrl); }
    r := None;
  }

  /** validateMeta. */
  method ValidateMeta(files: Files) returns (r: Option<Problem>)
    ensures r.None? <==> MetaOk(files)
    ensures r.Some? ==> MetaProblem(r.value)
    ensures r == Some(MetaUnparsable) <==> Meta in files && !files[Meta].MetaFile?
  {
    if Meta !in files { return None; }
    if !files[Meta].MetaFile? { return Some(MetaUnparsable); }
    var doc := files[Meta].meta;
    if doc.gsbsVersion == "pending" { return None; }
    if doc.fullSha != NoDigest {
      var got := FileSha(files, Gz);
      if got != NoDigest && got != doc.fullSha { return Some(MetaSha); }
    }
    r := None;
  }

  /** The directory passes: every artifact present is acceptable, and there is no
      bundle without an index. */
  predicate ValidDir(files: Files) {
    && (Index in files ==> IndexOk(files))
    && (Gz in files ==> BundleOk(files[Gz]) && Index in files)
    && MetaOk(files)
  }

  /** validate.Dir: collects the problems of all artifacts, one for each that is not
      acceptable. */
  method Dir(files: Files) returns (errs: seq<Problem>)
    ensures errs == [] <==> ValidDir(files)
    ensures (exists e :: e in errs && IndexProblem(e)) <==> Index in files && !IndexOk(files)
    ensures (exists e :: e in errs && BundleProblem(e)) <==> Gz in files && !BundleOk(files[Gz])
    ensures (exists e :: e in errs && MetaProblem(e)) <==> !MetaOk(files)
    ensures IndexMissing in errs <==> Index !in files && Gz in files && BundleOk(files[Gz]) && MetaOk(files)
  {
    errs := [];
    var hasIndex := false;
    var index: Option<Problem>, bundle: Option<Problem> := None, None;
    if Index in files {
      hasIndex := true;
      index := ValidateIndex(files);
      if index.Some? { errs := errs + [index.value]; }
    }
    if Gz in files {
      bundle := ValidateBundle(files[Gz]);
      if bundle.Some? { errs := errs + [bundle.value]; }
    }
    var meta := ValidateMeta(files);
    if meta.Some? { errs := errs + [meta.value]; }
    Collected(index, bundle, meta);
    if !hasIndex && |errs| == 0 {
      if Gz !in files { return []; }
      errs := errs + [IndexMissing];
    }
  }

  function Listed(e: Option<Problem>): seq<Problem> {
    if e.Some? then [e.value] else []
  }

  lemma Collected(index: Option<Problem>, bundle: Option<Problem>, meta: Option<Problem>)
    requires index.Some? ==> IndexProblem(index.value)
    requires bundle.Some? ==> BundleProblem(bundle.value)
    requires meta.Some? ==> MetaProblem(meta.value)
    ensures
      var errs := Listed(index) + Listed(bundle) + Listed(meta);
      && ((exists e :: e in errs && IndexProblem(e)) <==> index.Some?)
      && ((exists e :: e in errs && BundleProblem(e)) <==> bundle.Some?)
      && ((exists e :: e in errs && MetaProblem(e)) <==> meta.Some?)
      && IndexMissing !in errs && (errs == [] <==> index.None? && bundle.None? && meta.None?)
  {
    var errs := Listed(index) + Listed(bundle) + Listed(meta);
    assert index.Some? ==> index.value in errs;
    assert bundle.Some? ==> bundle.value in errs;
    assert meta.Some? ==> meta.value in errs;
  }

  // ---- what passing does and does not establish ---------------------------

  /** The index names the bundle that is there. */
  predicate IndexNamesBundle(files: Files) {
    && Index in files && files[Index].IndexFile? && Gz in files
    && files[Index].index.fullSha == DigestOf(files[Gz])
  }

  /** A directory with an index that passes is coherent exactly when the bundle is
      present and the index carries a checksum: validation alone checks neither. */
  lemma ValidationCoherence(files: Files)
    requires ValidDir(files) && Index in files
    ensures IndexNamesBundle(files) <==> Gz in files && files[Index].index.fullSha != NoDigest
  {
  }

  /** In particular an index whose bundle is absent passes. */
  lemma ValidationAcceptsMissingBundle(doc: IndexDoc)
    ensures ValidDir(map[Index := IndexFile(doc)]) <==>
            doc.fullVersion == doc.version && Contains(doc.url, FileName(Gz))
    ensures !IndexNamesBundle(map[Index := IndexFile(doc)])
  {
  }
}
