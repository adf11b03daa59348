/** Taking a backup and restoring it, as functions from file system to file system: what the
    manifest and archive record, and what Restore makes of them. */
module Backup {
  import opened Text
  import opened Paths
  import opened FileSystem
  import opened Archive
  import Checksum

  datatype ManifestEntry = ManifestEntry(originalPath: string, snapshotPath: string, existed: bool, mode: nat)

  datatype Manifest = Manifest(
    id: string, createdAt: int, rootDir: string, entries: seq<ManifestEntry>, source: string, description: string,
    fileCount: nat, createdByVersion: string, pinned: bool, checksum: string, compressed: bool)

  datatype ArchiveEntry = ArchiveEntry(relPath: string, sourcePath: string, mode: nat)

  /** What the code takes from outside: two directories, SHA-256 in hex, tar with gzip, and the
      text of a manifest. */
  datatype Env = Env(home: string, backupRoot: string, sha: string -> string, tar: Tar, marshal: Manifest -> string)

  const MANIFEST_NAME: string := "manifest.json"
  const ARCHIVE_NAME: string := "snapshot.tar.gz"
  const FILE_MODE: nat := 420 // 0644

  // ---------------------------------------------------------------- taking a backup

  /** buildEntry: None when the path cannot be inspected. */
  function BuildEntry(fs: Fs, source: string): Option<(ManifestEntry, Option<ArchiveEntry>)> {
    var clean, p := Clean(source), Components(source);
    if p !in fs then
      if Blocked(fs, p) then None else Some((ManifestEntry(clean, "", false, 0), None))
    else
      match fs[p]
      case Dir => Some((ManifestEntry(clean, "", false, 0), None))
      case File(_, mode) =>
        Some((ManifestEntry(clean, ArchiveName(clean), true, mode),
              Some(ArchiveEntry(ArchiveName(clean), clean, mode))))
  }

  function BuildAll(fs: Fs, sources: seq<string>): Option<(seq<ManifestEntry>, seq<ArchiveEntry>)> {
    if sources == [] then Some(([], []))
    else
      match BuildEntry(fs, sources[0])
      case None => None
      case Some((entry, archived)) =>
        match BuildAll(fs, sources[1..])
        case None => None
        case Some((entries, rest)) =>
          Some(([entry] + entries, (if archived.Some? then [archived.value] else []) + rest))
  }

  /** addFileToTar over all entries: each source is read again. */
  function ReadSources(fs: Fs, es: seq<ArchiveEntry>): Option<seq<TarEntry>> {
    if es == [] then Some([])
    else if !IsFile(fs, Components(es[0].sourcePath)) then None
    else
      match ReadSources(fs, es[1..])
      case None => None
      case Some(rest) => Some([TarEntry(es[0].relPath, true, es[0].mode, fs[Components(es[0].sourcePath)].data)] + rest)
  }

  /** CreateArchive: the file is created before the sources are read into it. */
  function CreateArchive(tar: Tar, fs: Fs, archive: Path, es: seq<ArchiveEntry>): (Fs, bool)
    requires archive != []
  {
    match MkdirAll(fs, Parent(archive))
    case None => (fs, false)
    case Some(made) =>
      match Overwrite(made, archive, "", FILE_MODE)
      case None => (made, false)
      case Some(opened_) =>
        match ReadSources(opened_, es)
        case None => (opened_, false)
        case Some(content) =>
          match Overwrite(opened_, archive, tar.pack(content), FILE_MODE)
          case None => (opened_, false)
          case Some(fs') => (fs', true)
  }

  /** What Create records for the sources when they are at fs. */
  function ManifestFor(env: Env, fs: Fs, snapshotDir: string, now: int, entries: seq<ManifestEntry>,
                       archived: seq<ArchiveEntry>): Manifest {
    var existing := SourcePaths(archived);
    var checksum :=
      if archived == [] then env.sha("")
      else match Checksum.Compute(env.sha, fs, existing) case None => "" case Some(c) => c;
    var dir := Components(snapshotDir);
    Manifest(if dir == [] then "/" else dir[|dir| - 1], now, snapshotDir, entries, "", "", |archived|, "", false,
             checksum, archived != [])
  }

  function SourcePaths(es: seq<ArchiveEntry>): seq<string> {
    seq(|es|, i requires 0 <= i < |es| => es[i].sourcePath)
  }

  /** Snapshotter.Create. */
  function Create(env: Env, fs: Fs, snapshotDir: string, sources: seq<string>, now: int): (Fs, Option<Manifest>)
    requires IsAbs(snapshotDir)
  {
    var dir := Components(snapshotDir);
    match MkdirAll(fs, dir)
    case None => (fs, None)
    case Some(made) =>
      match BuildAll(made, sources)
      case None => (made, None)
      case Some((entries, archived)) =>
        var (stored, ok) := if archived == [] then (made, true)
          else CreateArchive(env.tar, made, dir + [ARCHIVE_NAME], archived);
        if !ok then (stored, None)
        else
          var manifest := ManifestFor(env, stored, snapshotDir, now, entries, archived);
          match Overwrite(stored, dir + [MANIFEST_NAME], env.marshal(manifest), FILE_MODE)
          case None => (stored, None)
          case Some(fs') => (fs', Some(manifest))
  }

  // ---------------------------------------------------------------- restoring one

  /** isPathUnderHome, where no path is a link. */
  predicate UnderHome(env: Env, path: string) {
    HasPrefix(Clean(path), Clean(env.home) + "/")
  }

  predicate UnderBackupRoot(env: Env, path: string) {
    HasPrefix(Clean(path), Clean(env.backupRoot) + "/")
  }

  /** restoreEntry: the flag is false when it fails, possibly after creating directories. */
  function RestoreEntry(env: Env, fs: Fs, e: ManifestEntry, trusted: bool): (Fs, bool) {
    var p := Components(e.originalPath);
    if !IsAbs(e.originalPath) || !UnderHome(env, e.originalPath) then (fs, false)
    else if !trusted && !UnderBackupRoot(env, e.snapshotPath) then (fs, false)
    else if !IsFile(fs, Components(e.snapshotPath)) then (fs, false)
    else
      PrefixedNotRoot(e.originalPath, env.home);
      match MkdirAll(fs, Parent(p))
      case None => (fs, false)
      case Some(made) =>
        match WriteFileAtomic(made, p, fs[Components(e.snapshotPath)].data, e.mode)
        case None => (made, false)
        case Some(fs') => (fs', true)
  }

  function RestoreOne(env: Env, tempDir: string, fs: Fs, e: ManifestEntry, compressed: bool): (Fs, bool) {
    if e.existed then
      if !compressed then RestoreEntry(env, fs, e, false)
      else if IsAbs(e.snapshotPath) then (fs, false)
      else RestoreEntry(env, fs, e.(snapshotPath := JoinPath(tempDir, e.snapshotPath)), true)
    else if !IsAbs(e.originalPath) || !UnderHome(env, e.originalPath) then (fs, false)
    else
      match Remove(fs, Components(e.originalPath))
      case None => (fs, false)
      case Some(fs') => (fs', true)
  }

  /** The loop over the manifest's entries, in order, stopping at the first failure. */
  function RestoreEntries(env: Env, tempDir: string, fs: Fs, es: seq<ManifestEntry>, compressed: bool): (Fs, bool)
    decreases |es|
  {
    if es == [] then (fs, true)
    else
      var (fs1, ok) := RestoreOne(env, tempDir, fs, es[0], compressed);
      if ok then RestoreEntries(env, tempDir, fs1, es[1..], compressed) else (fs1, false)
  }

  /** RestoreService.Restore. tempDir is the directory os.MkdirTemp hands out; it is used only
      for a compressed backup, and is removed again whatever happens. */
  function Restore(env: Env, fs: Fs, m: Manifest, tempDir: Path): (Fs, bool)
    requires ValidPath(tempDir)
  {
    if !m.compressed then RestoreEntries(env, Render(tempDir), fs, m.entries, false)
    else
      var dest := Render(tempDir);
      var (extracted, ok) := Extract(env.tar, fs[tempDir := Dir], Components(m.rootDir + "/" + ARCHIVE_NAME), dest);
      if !ok then (RemoveAll(extracted, tempDir), false)
      else
        var (restored, ok') := RestoreEntries(env, dest, extracted, m.entries, true);
        (RemoveAll(restored, tempDir), ok')
  }
}
