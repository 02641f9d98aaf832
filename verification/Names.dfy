/** The bucket's key space: live objects, archive snapshots and database backups. */
module Names {
  import opened Text
  import opened Decimal
  import opened Calendar
  import opened Store

  const ARCHIVE := "archive/"
  const BACKUPS := "db-backup/"

  /** Client.key: live objects sit under the configured prefix. */
  function LiveKey(prefix: string, a: Artifact): string {
    if prefix == "" then FileName(a) else prefix + "/" + FileName(a)
  }

  /** The names of the live objects, spelled out. */
  lemma LiveKeysAre(prefix: string)
    ensures
      var folder := if prefix == "" then "" else prefix + "/";
      && LiveKey(prefix, Gz) == folder + "manifest.json.gz"
      && LiveKey(prefix, Meta) == folder + "manifest.meta.json"
      && LiveKey(prefix, Index) == folder + "index.json"
      && LiveKey(prefix, Delta) == folder + "manifest.delta.json.gz"
  {
  }

  /** The name of an archive snapshot, "archive/v<version>-<stamp>". */
  function ArchiveName(version: nat, t: nat): string
    requires FourDigitYear(t)
  {
    ARCHIVE + ("v" + (Dec(version) + ("-" + Stamp(t))))
  }

  function ArchiveKey(version: nat, t: nat, a: Artifact): string
    requires FourDigitYear(t)
  {
    ArchiveName(version, t) + "/" + FileName(a)
  }

  /** The key of a database backup, "db-backup/gsbs-<stamp>.db.gz". */
  function BackupKey(t: nat): string
    requires FourDigitYear(t)
  {
    BACKUPS + ("gsbs-" + (Stamp(t) + ".db.gz"))
  }

  /** Key order is time order: for all instants in the years 0 to 9999 the text
      order of backup keys is the order of the instants, to the second. */
  lemma BackupKeyOrder(t: nat, u: nat)
    requires FourDigitYear(t) && FourDigitYear(u)
    ensures Less(BackupKey(t), BackupKey(u)) <==> t < u
    ensures BackupKey(t) == BackupKey(u) <==> t == u
  {
    StampOrder(t, u);
    LessCommonPrefix(BACKUPS, "gsbs-" + (Stamp(t) + ".db.gz"), "gsbs-" + (Stamp(u) + ".db.gz"));
    LessCommonPrefix("gsbs-", Stamp(t) + ".db.gz", Stamp(u) + ".db.gz");
    if t == u {
      LessIrreflexive(BackupKey(t));
    } else {
      LessFixedWidth(Stamp(t), ".db.gz", Stamp(u), ".db.gz");
      var n := |BACKUPS| + |"gsbs-"|;
      assert BackupKey(t)[n..n + 15] == Stamp(t) && BackupKey(u)[n..n + 15] == Stamp(u);
    }
  }

  /** Archive names of versions with equally many digits sort by version, then by time. */
  lemma ArchiveNameOrder(u: nat, t: nat, v: nat, s: nat)
    requires FourDigitYear(t) && FourDigitYear(s) && Width(u) == Width(v)
    ensures Less(ArchiveName(u, t), ArchiveName(v, s)) <==> u < v || (u == v && t < s)
  {
    ArchiveNameCore(u, t, v, s);
    WidthBound(u);
    WidthBound(v);
    FieldOrder(u, "-" + Stamp(t), v, "-" + Stamp(s), Width(u));
    LessCommonPrefix("-", Stamp(t), Stamp(s));
    StampOrder(t, s);
  }

  lemma ArchiveNameCore(u: nat, t: nat, v: nat, s: nat)
    requires FourDigitYear(t) && FourDigitYear(s)
    ensures Less(ArchiveName(u, t), ArchiveName(v, s))
       <==> Less(Dec(u) + ("-" + Stamp(t)), Dec(v) + ("-" + Stamp(s)))
  {
    var x, y := Dec(u) + ("-" + Stamp(t)), Dec(v) + ("-" + Stamp(s));
    LessCommonPrefix(ARCHIVE, "v" + x, "v" + y);
    LessCommonPrefix("v", x, y);
  }

  /** A backup's key spells out its instant. */
  lemma BackupKeyReadsBack(t: nat)
    requires FourDigitYear(t)
    ensures
      var k := BackupKey(t);
      && |k| == 36 && k[..15] == "db-backup/gsbs-" && k[30..] == ".db.gz" && k[15..30] == Stamp(t)
      && (forall i :: 0 <= i < 15 && i != 8 ==> '0' <= k[15..30][i] <= '9')
      && StampInstant(k[15..30]) == t
  {
    StampReadsBack(t);
    BackupKeyParts(t);
  }

  lemma BackupKeyParts(t: nat)
    requires FourDigitYear(t)
    ensures
      var k := BackupKey(t);
      |k| == 36 && k[..15] == "db-backup/gsbs-" && k[30..] == ".db.gz" && k[15..30] == Stamp(t)
  {
    assert BACKUPS + "gsbs-" == "db-backup/gsbs-";
  }

  /** An archive key spells out its version and its instant. */
  lemma ArchiveKeyReadsBack(version: nat, t: nat, a: Artifact)
    requires FourDigitYear(t)
    ensures
      var k, w := ArchiveKey(version, t, a), Width(version);
      && k == "archive/v" + k[9..9 + w] + "-" + k[10 + w..25 + w] + "/" + FileName(a)
      && DecValue(k[9..9 + w]) == version && (k[9] == '0' ==> version == 0)
      && k[10 + w..25 + w] == Stamp(t)
  {
    DecReadsBack(version);
    ArchiveKeyParts(version, t, a);
    var k, w := ArchiveKey(version, t, a), Width(version);
    assert k[9] == k[9..9 + w][0];
  }

  lemma ArchiveKeyParts(version: nat, t: nat, a: Artifact)
    requires FourDigitYear(t)
    ensures
      var k, w := ArchiveKey(version, t, a), Width(version);
      && k == "archive/v" + Dec(version) + "-" + Stamp(t) + "/" + FileName(a)
      && |k| > 25 + w && k[9..9 + w] == Dec(version) && k[10 + w..25 + w] == Stamp(t)
  {
    var d, s, f := Dec(version), Stamp(t), FileName(a);
    var head := "archive/v";
    assert ARCHIVE + "v" == head;
    assert ArchiveKey(version, t, a) == head + d + "-" + s + "/" + f;
    FiveParts(head, d, s, f);
  }

  lemma FiveParts(head: string, d: string, s: string, f: string)
    ensures
      var k, n, w := head + d + "-" + s + "/" + f, |head|, |d|;
      k[n..n + w] == d && k[n + w + 1..n + w + 1 + |s|] == s
  {
  }

  lemma DecCut(v: nat, k: nat) returns (tail: string)
    requires 0 < k < Width(v)
    ensures Dec(v) == Dec(Cut(v, k)) + tail
    ensures |tail| == k && '0' <= tail[0]
  {
    var w := Width(v) - k;
    WidthCut(v, k);
    DigitsCut(v, Width(v), k);
    tail := Dec(v)[w..];
    assert Dec(v) == Dec(v)[..w] + tail;
    assert tail[0] == Dec(v)[w];
  }

  lemma ShorterNumberOrder(u: nat, x: string, v: nat, y: string)
    requires Width(u) < Width(v) && |x| > 0 && x[0] < '0'
    ensures Less(Dec(u) + x, Dec(v) + y) <==> u <= Cut(v, Width(v) - Width(u))
  {
    var k := Width(v) - Width(u);
    var c := Cut(v, k);
    var tail := DecCut(v, k);
    WidthCut(v, k);
    WidthBound(u);
    WidthBound(c);
    AppendAssociative(Dec(c), tail, y);
    FirstCharDecides(x, tail + y);
    FieldOrder(u, x, c, tail + y, Width(u));
  }

  lemma AppendAssociative(a: string, b: string, c: string)
    ensures (a + b) + c == a + (b + c)
  {
  }

  lemma FirstCharDecides(x: string, z: string)
    requires |x| > 0 && |z| > 0 && x[0] < z[0]
    ensures Less(x, z)
  {
  }

  /** In general the text order of an older and a newer version is the intended
      one exactly when the older version does not exceed the newer one cut to
      as many digits.  So v10 sorts before v9, although it is newer. */
  lemma ArchiveNameOrderExact(u: nat, t: nat, v: nat, s: nat)
    requires FourDigitYear(t) && FourDigitYear(s) && u < v
    ensures Width(u) <= Width(v)
    ensures Less(ArchiveName(u, t), ArchiveName(v, s)) <==> u <= v / Pow10(Width(v) - Width(u))
  {
    WidthMonotone(u, v);
    CutIsQuotient(v, Width(v) - Width(u));
    if Width(u) == Width(v) {
      ArchiveNameOrder(u, t, v, s);
    } else {
      ArchiveNameCore(u, t, v, s);
      ShorterNumberOrder(u, "-" + Stamp(t), v, "-" + Stamp(s));
    }
  }

  // ---- the three parts of the key space do not overlap --------------------

  /** The text before the first slash. */
  function FirstSegment(s: string): string {
    s[..IndexOf(s, '/')]
  }

  lemma SegmentPrefix(s: string, seg: string)
    requires '/' !in seg
    ensures HasPrefix(s, seg + "/") <==> IndexOf(s, '/') < |s| && FirstSegment(s) == seg
  {
    if HasPrefix(s, seg + "/") {
      PrefixSegment(s, seg);
    }
    if IndexOf(s, '/') < |s| && FirstSegment(s) == seg {
      SegmentIsPrefix(s, seg);
    }
  }

  lemma SegmentIsPrefix(s: string, seg: string)
    requires |seg| < |s| && s[..|seg|] == seg && s[|seg|] == '/'
    ensures HasPrefix(s, seg + "/")
  {
    assert s[..|seg| + 1] == seg + "/";
  }

  lemma PrefixSegment(s: string, seg: string)
    requires '/' !in seg && HasPrefix(s, seg + "/")
    ensures IndexOf(s, '/') == |seg| && FirstSegment(s) == seg
  {
    var p := seg + "/";
    assert p == s[..|p|];
    assert s[|seg|] == p[|seg|] == '/';
    assert s[..|seg|] == p[..|seg|] == seg;
    IndexOfAt(s, '/', |seg|);
  }

  lemma NoSlashInFileName(a: Artifact)
    ensures '/' !in FileName(a)
  {
  }

  lemma LiveKeySegment(prefix: string, a: Artifact)
    ensures prefix != "" ==> FirstSegment(LiveKey(prefix, a)) == FirstSegment(prefix) && '/' in LiveKey(prefix, a)
    ensures prefix == "" ==> '/' !in LiveKey(prefix, a)
  {
    NoSlashInFileName(a);
    if prefix != "" {
      var k := LiveKey(prefix, a);
      var i := IndexOf(prefix, '/');
      assert k[|prefix|] == '/' && k[..|prefix|] == prefix;
      assert k[..i] == prefix[..i];
      IndexOfAt(k, '/', i);
    }
  }

  /** A live key lies under a top-level folder exactly when the configured
      prefix starts with that folder's name. */
  lemma LiveKeyUnder(prefix: string, a: Artifact, folder: string)
    requires '/' !in folder && folder != ""
    ensures HasPrefix(LiveKey(prefix, a), folder + "/") <==> FirstSegment(prefix) == folder
  {
    LiveKeySegment(prefix, a);
    var k := LiveKey(prefix, a);
    SegmentPrefix(k, folder);
  }

  /** The prefix keeps live objects out of reach of both pruning operations. */
  predicate SafePrefix(prefix: string) {
    FirstSegment(prefix) != "archive" && FirstSegment(prefix) != "db-backup"
  }

  lemma LiveKeysSafe(prefix: string, a: Artifact)
    ensures SafePrefix(prefix) <==>
      !HasPrefix(LiveKey(prefix, a), ARCHIVE) && !HasPrefix(LiveKey(prefix, a), BACKUPS)
  {
    assert "archive" + "/" == ARCHIVE && "db-backup" + "/" == BACKUPS;
    LiveKeyUnder(prefix, a, "archive");
    LiveKeyUnder(prefix, a, "db-backup");
  }

  /** What follows "db-backup/" in a live key under a prefix in that folder. */
  function TailInBackups(prefix: string, a: Artifact): string
    requires FirstSegment(prefix) == "db-backup"
  {
    LiveKeyUnder(prefix, a, "db-backup");
    LiveKey(prefix, a)[|BACKUPS|..]
  }

  /** With a prefix in the backups' folder a live object is taken for a backup.  It is
      taken for a newer one than a real backup exactly when its tail sorts after that
      backup's; one whose tail does not begin like a backup's is taken for the newest
      of all, so pruning keeps it and restoring finds it, or for the oldest of all. */
  lemma UnsafePrefixOrder(prefix: string, a: Artifact, t: nat)
    requires FirstSegment(prefix) == "db-backup" && FourDigitYear(t)
    ensures !SafePrefix(prefix) && HasPrefix(LiveKey(prefix, a), BACKUPS)
    ensures
      var tail := TailInBackups(prefix, a);
      && (Less(BackupKey(t), LiveKey(prefix, a)) <==> Less("gsbs-" + (Stamp(t) + ".db.gz"), tail))
      && (!HasPrefix(tail, "gsbs-") ==>
            && (Less(BackupKey(t), LiveKey(prefix, a)) <==> Less("gsbs-", tail))
            && (Less(LiveKey(prefix, a), BackupKey(t)) <==> Less(tail, "gsbs-")))
  {
    assert "db-backup" + "/" == BACKUPS;
    LiveKeyUnder(prefix, a, "db-backup");
    var tail, name := TailInBackups(prefix, a), "gsbs-" + (Stamp(t) + ".db.gz");
    assert LiveKey(prefix, a) == BACKUPS + tail;
    LessCommonPrefix(BACKUPS, name, tail);
    LessCommonPrefix(BACKUPS, tail, name);
    if !HasPrefix(tail, "gsbs-") {
      LessByPrefix("gsbs-", Stamp(t) + ".db.gz", tail);
    }
  }

  /** So under the prefix db-backup the live index hides every backup. */
  lemma UnsafePrefixHidesBackups(t: nat)
    requires FourDigitYear(t)
    ensures !SafePrefix("db-backup")
    ensures HasPrefix(LiveKey("db-backup", Index), BACKUPS)
    ensures Less(BackupKey(t), LiveKey("db-backup", Index))
  {
    IndexOfNothing("db-backup");
    UnsafePrefixOrder("db-backup", Index, t);
    assert TailInBackups("db-backup", Index) == FileName(Index);
  }

  /** And under db-backup/a it is the first backup that pruning deletes. */
  lemma UnsafePrefixPrunesLive(t: nat)
    requires FourDigitYear(t)
    ensures HasPrefix(LiveKey("db-backup/a", Index), BACKUPS)
    ensures Less(LiveKey("db-backup/a", Index), BackupKey(t))
  {
    var prefix := "db-backup" + "/a";
    SegmentPrefix(prefix, "db-backup");
    assert prefix == ("db-backup" + "/") + "a";
    UnsafePrefixOrder(prefix, Index, t);
    var tail := TailInBackups(prefix, Index);
    assert tail[0] == LiveKey(prefix, Index)[10] == 'a';
    FirstCharDecides(tail, "gsbs-");
    NotPrefix(tail, "gsbs-");
    assert Less(LiveKey(prefix, Index), BackupKey(t));
    assert prefix == "db-backup/a";
  }

  lemma IndexOfNothing(s: string)
    requires '/' !in s
    ensures FirstSegment(s) == s
  {
  }

  lemma LiveKeysDistinct(prefix: string, a: Artifact, b: Artifact)
    ensures LiveKey(prefix, a) == LiveKey(prefix, b) <==> a == b
  {
    var n := if prefix == "" then 0 else |prefix| + 1;
    assert LiveKey(prefix, a)[n..] == FileName(a) && LiveKey(prefix, b)[n..] == FileName(b);
    FileNamesDistinct(a, b);
  }

  lemma FileNamesDistinct(a: Artifact, b: Artifact)
    ensures FileName(a) == FileName(b) ==> a == b
  {
    assert |FileName(Gz)| == 16 && |FileName(Meta)| == 18 && |FileName(Index)| == 10;
    assert |FileName(Releases)| == 22 && |FileName(Delta)| == 22;
    assert FileName(Releases)[9] == 'r' && FileName(Delta)[9] == 'd';
  }

  lemma NotPrefix(s: string, p: string)
    requires |s| > 0 && |p| > 0 && s[0] != p[0]
    ensures !HasPrefix(s, p)
  {
    if |p| <= |s| {
      assert s[..|p|][0] == s[0];
    }
  }

  lemma ArchiveKeyPrefix(version: nat, t: nat, a: Artifact)
    requires FourDigitYear(t)
    ensures HasPrefix(ArchiveKey(version, t, a), ARCHIVE)
    ensures !HasPrefix(ArchiveKey(version, t, a), BACKUPS)
  {
    var k := ArchiveKey(version, t, a);
    assert k[..8] == ARCHIVE;
    NotPrefix(k, BACKUPS);
  }

  lemma BackupKeyPrefix(t: nat)
    requires FourDigitYear(t)
    ensures HasPrefix(BackupKey(t), BACKUPS)
    ensures !HasPrefix(BackupKey(t), ARCHIVE)
  {
    var k := BackupKey(t);
    assert k[..10] == BACKUPS;
    NotPrefix(k, ARCHIVE);
  }

  // ---- archive groups -----------------------------------------------------

  /** The archive snapshot a key belongs to: its common prefix under "archive/"
      with delimiter "/", the trailing slash trimmed. */
  function GroupOf(key: string): Option<string> {
    if !HasPrefix(key, ARCHIVE) then None
    else
      var i := IndexOf(key[8..], '/');
      if i < |key[8..]| then Some(key[..8 + i]) else None
  }

  predicate IsGroup(g: string) {
    HasPrefix(g, ARCHIVE) && '/' !in g[8..]
  }

  /** Deleting the prefix g + "/" of a group reaches exactly the keys of that
      group, so archive/v1-.../ never reaches archive/v10-.../. */
  lemma GroupPrefix(key: string, g: string)
    ensures GroupOf(key) == Some(g) <==> IsGroup(g) && HasPrefix(key, g + "/")
  {
    if IsGroup(g) && HasPrefix(key, g + "/") {
      UnderGroup(key, g);
    }
  }

  lemma UnderGroup(key: string, g: string)
    requires IsGroup(g) && HasPrefix(key, g + "/")
    ensures GroupOf(key) == Some(g)
  {
    var n := |g|;
    assert g + "/" == key[..n + 1];
    assert key[..n] == g by {
      assert key[..n] == key[..n + 1][..n] == (g + "/")[..n];
    }
    assert key[n] == key[..n + 1][n] == '/';
    assert key[..8] == key[..n][..8] == ARCHIVE;
    assert key[8..][..n - 8] == key[..n][8..];
    IndexOfAt(key[8..], '/', n - 8);
  }

  lemma {:induction false} NoSlashInDigits(n: nat, w: nat)
    ensures '/' !in Digits(n, w)
  {
    if w > 0 {
      NoSlashInDigits(n / 10, w - 1);
    }
  }

  lemma NoSlashInStamp(t: nat)
    requires FourDigitYear(t)
    ensures '/' !in Stamp(t)
  {
    var c := CivilAt(t);
    NoSlashInDigits(c.year, 4);
    NoSlashInDigits(c.month, 2);
    NoSlashInDigits(c.day, 2);
    NoSlashInDigits(c.hour, 2);
    NoSlashInDigits(c.minute, 2);
    NoSlashInDigits(c.second, 2);
  }

  /** The objects one upload archives form one group, named after its snapshot. */
  lemma ArchiveKeyGroup(version: nat, t: nat, a: Artifact)
    requires FourDigitYear(t)
    ensures GroupOf(ArchiveKey(version, t, a)) == Some(ArchiveName(version, t))
  {
    var g := ArchiveName(version, t);
    NoSlashInDigits(version, Width(version));
    NoSlashInStamp(t);
    assert g[..8] == ARCHIVE && g[8..] == "v" + (Dec(version) + ("-" + Stamp(t)));
    assert ArchiveKey(version, t, a)[..|g| + 1] == g + "/";
    GroupPrefix(ArchiveKey(version, t, a), g);
  }
}
