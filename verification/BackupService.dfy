/** The backup code as it runs: loops over paths, archive entries and manifest entries that change
    a disk, each proved to do what the corresponding function in Backup or Archive says. */
module BackupService {
  import opened Text
  import opened Paths
  import opened FileSystem
  import opened Archive
  import opened Backup
  import Checksum

  class Disk {
    var nodes: Fs

    constructor (nodes: Fs)
      ensures this.nodes == nodes
    {
      this.nodes := nodes;
    }
  }

  /** What the loop in Create has collected, in front of what is still to come. */
  ghost function Collected(entries: seq<ManifestEntry>, archived: seq<ArchiveEntry>,
                           rest: Option<(seq<ManifestEntry>, seq<ArchiveEntry>)>)
    : Option<(seq<ManifestEntry>, seq<ArchiveEntry>)>
  {
    match rest
    case None => None
    case Some((es, as_)) => Some((entries + es, archived + as_))
  }

  /** The collection loop of Create. */
  method CollectSources(fs: Fs, sources: seq<string>)
    returns (ok: bool, entries: seq<ManifestEntry>, archived: seq<ArchiveEntry>, existing: seq<string>, fileCount: nat)
    ensures ok <==> BuildAll(fs, sources).Some?
    ensures ok ==> BuildAll(fs, sources).value == (entries, archived)
    ensures ok ==> existing == SourcePaths(archived) && fileCount == |archived|
  {
    entries, archived, existing, fileCount := [], [], [], 0;
    var i := 0;
    assert sources[0..] == sources;
    assert Collected([], [], BuildAll(fs, sources)) == BuildAll(fs, sources) by {
      match BuildAll(fs, sources)
      case None =>
      case Some((es, as_)) => assert [] + es == es && [] + as_ == as_;
    }
    while i < |sources|
      invariant 0 <= i <= |sources|
      invariant Collected(entries, archived, BuildAll(fs, sources[i..])) == BuildAll(fs, sources)
      invariant existing == SourcePaths(archived) && fileCount == |archived|
    {
      var built := BuildEntry(fs, sources[i]);
      assert sources[i..][0] == sources[i] && sources[i..][1..] == sources[i + 1..];
      if built.None? { return false, [], [], [], 0; }
      CollectStep(entries, archived, fs, sources, i);
      var (entry, found) := built.value;
      entries := entries + [entry];
      if found.Some? {
        fileCount := fileCount + 1;
        archived := archived + [found.value];
        existing := existing + [found.value.sourcePath];
      } else {
        assert archived + [] == archived;
      }
      assert existing == SourcePaths(archived);
      i := i + 1;
    }
    assert sources[i..] == [] && entries + [] == entries && archived + [] == archived;
    ok := true;
  }

  lemma CollectStep(entries: seq<ManifestEntry>, archived: seq<ArchiveEntry>, fs: Fs, sources: seq<string>, i: nat)
    requires i < |sources| && BuildEntry(fs, sources[i]).Some?
    ensures var (e, a) := BuildEntry(fs, sources[i]).value;
      Collected(entries, archived, BuildAll(fs, sources[i..]))
      == Collected(entries + [e], archived + (if a.Some? then [a.value] else []), BuildAll(fs, sources[i + 1..]))
  {
    assert sources[i..][1..] == sources[i + 1..];
    var (e, a) := BuildEntry(fs, sources[i]).value;
    match BuildAll(fs, sources[i + 1..])
    case None =>
    case Some((es, as_)) =>
      assert entries + ([e] + es) == entries + [e] + es;
      assert archived + ((if a.Some? then [a.value] else []) + as_)
             == archived + (if a.Some? then [a.value] else []) + as_;
  }

  ghost function Read(content: seq<TarEntry>, rest: Option<seq<TarEntry>>): Option<seq<TarEntry>> {
    match rest
    case None => None
    case Some(more) => Some(content + more)
  }

  /** CreateArchive: create the file, read each source into it, close it. */
  method WriteArchive(disk: Disk, tar: Tar, archive: Path, es: seq<ArchiveEntry>) returns (ok: bool)
    requires archive != []
    modifies disk
    ensures (disk.nodes, ok) == CreateArchive(tar, old(disk.nodes), archive, es)
  {
    var made := MkdirAll(disk.nodes, Parent(archive));
    if made.None? { return false; }
    disk.nodes := made.value;
    var opened_ := Overwrite(disk.nodes, archive, "", FILE_MODE);
    if opened_.None? { return false; }
    disk.nodes := opened_.value;
    var content: seq<TarEntry> := [];
    var i := 0;
    assert es[0..] == es;
    assert forall rest: seq<TarEntry> :: [] + rest == rest;
    while i < |es|
      invariant 0 <= i <= |es|
      invariant disk.nodes == opened_.value
      invariant ReadSources(disk.nodes, es) == Read(content, ReadSources(disk.nodes, es[i..]))
    {
      assert es[i..][0] == es[i] && es[i..][1..] == es[i + 1..];
      var source := Components(es[i].sourcePath);
      if !IsFile(disk.nodes, source) { return false; }
      var entry := TarEntry(es[i].relPath, true, es[i].mode, disk.nodes[source].data);
      assert forall rest :: content + ([entry] + rest) == content + [entry] + rest;
      content := content + [entry];
      i := i + 1;
    }
    assert es[i..] == [] && content + [] == content;
    var closed := Overwrite(disk.nodes, archive, tar.pack(content), FILE_MODE);
    if closed.None? { return false; }
    disk.nodes := closed.value;
    ok := true;
  }

  /** The part of Create that archives what was found. */
  method StoreArchive(disk: Disk, tar: Tar, dir: Path, archived: seq<ArchiveEntry>) returns (ok: bool)
    modifies disk
    ensures (disk.nodes, ok)
         == if archived == [] then (old(disk.nodes), true)
           else CreateArchive(tar, old(disk.nodes), dir + [ARCHIVE_NAME], archived)
  {
    if archived == [] { return true; }
    ok := WriteArchive(disk, tar, dir + [ARCHIVE_NAME], archived);
  }

  /** The part of Create that builds the manifest. */
  method DescribeSnapshot(env: Env, fs: Fs, snapshotDir: string, now: int, entries: seq<ManifestEntry>,
                          archived: seq<ArchiveEntry>, existing: seq<string>) returns (manifest: Manifest)
    requires existing == SourcePaths(archived)
    ensures manifest == ManifestFor(env, fs, snapshotDir, now, entries, archived)
  {
    var checksum;
    if existing == [] {
      checksum := env.sha("");
    } else {
      var computed := Checksum.ComputeChecksum(env.sha, fs, existing);
      checksum := if computed.None? then "" else computed.value;
    }
    var dir := Components(snapshotDir);
    manifest := Manifest(if dir == [] then "/" else dir[|dir| - 1], now, snapshotDir, entries, "", "", |archived|, "",
                         false, checksum, archived != []);
  }

  /** Snapshotter.Create. */
  method CreateSnapshot(disk: Disk, env: Env, snapshotDir: string, sources: seq<string>, now: int)
    returns (r: Option<Manifest>)
    requires IsAbs(snapshotDir)
    modifies disk
    ensures (disk.nodes, r) == Create(env, old(disk.nodes), snapshotDir, sources, now)
  {
    var dir := Components(snapshotDir);
    var made := MkdirAll(disk.nodes, dir);
    if made.None? { return None; }
    disk.nodes := made.value;
    var ok, entries, archived, existing, _ := CollectSources(disk.nodes, sources);
    if !ok { return None; }
    ok := StoreArchive(disk, env.tar, dir, archived);
    if !ok { return None; }
    var manifest := DescribeSnapshot(env, disk.nodes, snapshotDir, now, entries, archived, existing);
    var stored := Overwrite(disk.nodes, dir + [MANIFEST_NAME], env.marshal(manifest), FILE_MODE);
    if stored.None? { return None; }
    disk.nodes := stored.value;
    r := Some(manifest);
  }

  /** ExtractArchive. */
  method ExtractArchive(disk: Disk, tar: Tar, archive: Path, dest: string) returns (ok: bool)
    requires IsAbs(dest)
    modifies disk
    ensures (disk.nodes, ok) == Extract(tar, old(disk.nodes), archive, dest)
  {
    if !IsFile(disk.nodes, archive) { return false; }
    var opened_ := tar.unpack(disk.nodes[archive].data);
    if opened_.None? { return false; }
    var es := opened_.value;
    var i := 0;
    assert es[0..] == es;
    while i < |es|
      invariant 0 <= i <= |es|
      invariant ExtractAll(disk.nodes, dest, es[i..]) == ExtractAll(old(disk.nodes), dest, es)
    {
      assert es[i..][0] == es[i] && es[i..][1..] == es[i + 1..];
      var step := ExtractOne(disk.nodes, dest, es[i]);
      disk.nodes := step.0;
      if !step.1 { return false; }
      i := i + 1;
    }
    assert es[i..] == [];
    ok := true;
  }

  /** The entry loops of restoreCompressed and restorePlain. */
  method RestoreLoop(disk: Disk, env: Env, tempDir: string, es: seq<ManifestEntry>, compressed: bool) returns (ok: bool)
    modifies disk
    ensures (disk.nodes, ok) == RestoreEntries(env, tempDir, old(disk.nodes), es, compressed)
  {
    var i := 0;
    assert es[0..] == es;
    while i < |es|
      invariant 0 <= i <= |es|
      invariant RestoreEntries(env, tempDir, disk.nodes, es[i..], compressed)
                == RestoreEntries(env, tempDir, old(disk.nodes), es, compressed)
    {
      assert es[i..][0] == es[i] && es[i..][1..] == es[i + 1..];
      var step := RestoreOne(env, tempDir, disk.nodes, es[i], compressed);
      disk.nodes := step.0;
      if !step.1 { return false; }
      i := i + 1;
    }
    assert es[i..] == [];
    ok := true;
  }

  /** RestoreService.Restore. */
  method RestoreBackup(disk: Disk, env: Env, m: Manifest, tempDir: Path) returns (ok: bool)
    requires ValidPath(tempDir)
    modifies disk
    ensures (disk.nodes, ok) == Restore(env, old(disk.nodes), m, tempDir)
  {
    if !m.compressed {
      ok := RestoreLoop(disk, env, Render(tempDir), m.entries, false);
      return;
    }
    disk.nodes := disk.nodes[tempDir := Dir];
    ok := ExtractArchive(disk, env.tar, Components(m.rootDir + "/" + ARCHIVE_NAME), Render(tempDir));
    if ok {
      ok := RestoreLoop(disk, env, Render(tempDir), m.entries, true);
    }
    disk.nodes := RemoveAll(disk.nodes, tempDir);
  }
}
