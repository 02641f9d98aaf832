/** What the publisher's files and objects hold.

    sha256 is an injective, never empty function of a file's content, so the
    digest of a content is that content under a tag.  gzip is undone by gunzip,
    so a database backup is the snapshot under a tag.  A file whose write was
    cut short is Torn: nothing the program parses accepts it. */
module Store {

  datatype Option<T> = None | Some(value: T)

  type Bytes = seq<nat>

  /** The bytes of a SQLite database file. */
  type Snapshot = Bytes

  datatype Artifact = Gz | Meta | Releases | Index | Delta

  function FileName(a: Artifact): string {
    match a
    case Gz => "manifest.json.gz"
    case Meta => "manifest.meta.json"
    case Releases => "manifest.releases.json"
    case Index => "index.json"
    case Delta => "manifest.delta.json.gz"
  }

  datatype Digest = NoDigest | DigestOf(content: Content)

  /** One row of game_save_locations; each field as fmt.Sprint prints it. */
  datatype Row = Row(gameId: string, platform: string, pathTemplate: string)

  /** What decompressing and decoding a bundle yields. */
  datatype Decoded = NotGzip | NotJson | Document(schemaVersion: int, rows: seq<Row>)

  datatype Bundle = Bundle(bytes: Bytes, decoded: Decoded)

  datatype Counts = Counts(games: int, saveLocations: int, catalog: int)

  datatype MetaDoc = MetaDoc(
    counts: Counts, exportedAt: string, fullExportedAt: string, fullSha: Digest, gsbsVersion: string)

  datatype IndexDoc = IndexDoc(version: nat, fullVersion: nat, url: string, fullSha: Digest)

  datatype Release = Release(kind: string, exportedAt: string, fullExportedAt: string, sha: Digest)

  datatype Content =
    | BundleFile(bundle: Bundle)
    | MetaFile(meta: MetaDoc)
    | IndexFile(index: IndexDoc)
    | ReleasesFile(releases: seq<Release>)
    | BackupFile(db: Snapshot)
    | Torn(bytes: Bytes)

  type Files = map<Artifact, Content>

  type Objects = map<string, Content>

  /** fileSHA256: the empty text when the file cannot be read. */
  function FileSha(files: Files, a: Artifact): Digest {
    if a in files then DigestOf(files[a]) else NoDigest
  }
}
