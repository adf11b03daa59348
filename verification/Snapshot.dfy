/** What a backup records of its sources, and where extracting it puts their copies. */
module Snapshot {
  import opened Text
  import opened Paths
  import opened FileSystem
  import opened Archive
  import opened Backup

  // ---------------------------------------------------------------- what a backup records

  /** The manifest entry of a path that can be inspected. */
  function EntryFor(fs: Fs, p: Path): ManifestEntry {
    if IsFile(fs, p) then ManifestEntry(Render(p), ArchiveName(Render(p)), true, fs[p].mode)
    else ManifestEntry(Render(p), "", false, 0)
  }

  function PathsOf(sources: seq<string>): seq<Path> {
    if sources == [] then [] else [Components(sources[0])] + PathsOf(sources[1..])
  }

  /** The archive's content: the regular files, in the order they were listed. */
  function Content(fs: Fs, ps: seq<Path>): seq<TarEntry> {
    if ps == [] then []
    else
      (if IsFile(fs, ps[0]) then [TarEntry(ArchiveName(Render(ps[0])), true, fs[ps[0]].mode, fs[ps[0]].data)] else [])
      + Content(fs, ps[1..])
  }

  /** Neither path lies at or below the other. */
  predicate Apart(p: Path, q: Path) {
    !Within(p, q) && !Within(q, p)
  }

  ghost predicate AllAbs(sources: seq<string>) {
    forall i :: 0 <= i < |sources| ==> IsAbs(sources[i])
  }

  /** The two file systems agree about every path in the list. */
  ghost predicate Agree(fs: Fs, fs': Fs, ps: seq<Path>) {
    forall p :: p in ps ==> (p in fs <==> p in fs') && (p in fs ==> fs[p] == fs'[p])
  }

  lemma {:induction false} BuildAllRecords(fs: Fs, sources: seq<string>)
    requires AllAbs(sources) && BuildAll(fs, sources).Some?
    ensures var (entries, archived) := BuildAll(fs, sources).value; var ps := PathsOf(sources);
      && |entries| == |ps| == |sources|
      && (forall i :: 0 <= i < |ps| ==> entries[i] == EntryFor(fs, ps[i]) && (ps[i] in fs || !Blocked(fs, ps[i])))
      && |archived| == |Content(fs, ps)|
      && ReadSources(fs, archived) == Some(Content(fs, ps))
    decreases |sources|
  {
    if sources != [] {
      var p := Components(sources[0]);
      ComponentsValid(sources[0]);
      RenderComponents(p);
      BuildAllRecords(fs, sources[1..]);
      var rest, archived := BuildAll(fs, sources[1..]).value.1, BuildAll(fs, sources).value.1;
      assert IsFile(fs, p) ==> archived[1..] == rest;
      assert !IsFile(fs, p) ==> archived == rest && Content(fs, PathsOf(sources)) == Content(fs, PathsOf(sources[1..]));
    }
  }

  lemma {:induction false} ReadSourcesAgree(fs: Fs, fs': Fs, sources: seq<string>)
    requires AllAbs(sources) && BuildAll(fs, sources).Some? && Agree(fs, fs', PathsOf(sources))
    ensures ReadSources(fs', BuildAll(fs, sources).value.1) == ReadSources(fs, BuildAll(fs, sources).value.1)
    decreases |sources|
  {
    if sources != [] {
      var p := Components(sources[0]);
      ComponentsValid(sources[0]);
      RenderComponents(p);
      assert p in PathsOf(sources);
      forall q | q in PathsOf(sources[1..])
        ensures (q in fs <==> q in fs') && (q in fs ==> fs[q] == fs'[q])
      {
        assert q in PathsOf(sources);
      }
      ReadSourcesAgree(fs, fs', sources[1..]);
      var rest, archived := BuildAll(fs, sources[1..]).value.1, BuildAll(fs, sources).value.1;
      assert IsFile(fs, p) ==> archived[1..] == rest;
      assert !IsFile(fs, p) ==> archived == rest;
    }
  }

  lemma {:induction false} ContentAgree(fs: Fs, fs': Fs, ps: seq<Path>)
    requires Agree(fs, fs', ps)
    ensures Content(fs, ps) == Content(fs', ps)
  {
    if ps != [] {
      assert ps[0] in ps;
      ContentAgree(fs, fs', ps[1..]);
    }
  }

  /** The manifest and the stored archive describe the paths as they were at fs. */
  ghost predicate Records(env: Env, fs: Fs, ps: seq<Path>, snapshotDir: string, stored: Fs, m: Manifest) {
    var archive := Components(snapshotDir) + [ARCHIVE_NAME];
    && m.rootDir == snapshotDir && |m.entries| == |ps|
    && (forall i :: 0 <= i < |ps| ==> m.entries[i] == EntryFor(fs, ps[i]) && (ps[i] in fs || !Blocked(fs, ps[i])))
    && m.fileCount == |Content(fs, ps)|
    && (m.compressed <==> Content(fs, ps) != [])
    && (m.compressed ==> IsFile(stored, archive) && stored[archive].data == env.tar.pack(Content(fs, ps)))
  }

  /** Create's own writes stay inside the snapshot directory. */
  lemma CreateRecords(env: Env, fs: Fs, snapshotDir: string, sources: seq<string>, now: int)
    requires WellFormed(fs) && IsAbs(snapshotDir) && AllAbs(sources)
    requires Create(env, fs, snapshotDir, sources, now).1.Some?
    requires forall p :: p in PathsOf(sources) ==> Apart(p, Components(snapshotDir))
    ensures Records(env, fs, PathsOf(sources), snapshotDir, Create(env, fs, snapshotDir, sources, now).0,
                    Create(env, fs, snapshotDir, sources, now).1.value)
  {
    var dir, ps := Components(snapshotDir), PathsOf(sources);
    MkdirAllMakes(fs, dir);
    var made := MkdirAll(fs, dir).value;
    CreateShape(env, fs, snapshotDir, sources, now);
    assert Agree(fs, made, ps);
    MadeRecords(fs, made, dir, sources);
    var (entries, archived) := BuildAll(made, sources).value;
    if archived != [] {
      ArchiveWritten(env.tar, made, dir, sources);
      assert (dir + [ARCHIVE_NAME])[|dir|] != (dir + [MANIFEST_NAME])[|dir|];
    }
  }

  /** What a successful Create went through. */
  lemma CreateShape(env: Env, fs: Fs, snapshotDir: string, sources: seq<string>, now: int)
    requires IsAbs(snapshotDir) && Create(env, fs, snapshotDir, sources, now).1.Some?
    ensures var dir := Components(snapshotDir);
      && MkdirAll(fs, dir).Some? && BuildAll(MkdirAll(fs, dir).value, sources).Some?
      && var made := MkdirAll(fs, dir).value; var (entries, archived) := BuildAll(made, sources).value;
      && var (fs', r) := Create(env, fs, snapshotDir, sources, now); var m := r.value;
      && m.rootDir == snapshotDir && m.entries == entries && m.fileCount == |archived|
         && (m.compressed <==> archived != [])
      && (archived != [] ==>
            var (stored, ok) := CreateArchive(env.tar, made, dir + [ARCHIVE_NAME], archived);
            ok && forall q :: q in stored && q != dir + [MANIFEST_NAME] ==> q in fs' && fs'[q] == stored[q])
  {
  }

  lemma MadeRecords(fs: Fs, made: Fs, dir: Path, sources: seq<string>)
    requires AllAbs(sources) && BuildAll(made, sources).Some? && Agree(fs, made, PathsOf(sources))
    requires forall p :: p in PathsOf(sources) ==> Apart(p, dir)
    requires forall q :: q in fs ==> q in made && made[q] == fs[q]
    requires forall q :: q in made && q !in fs ==> Within(q, dir) && made[q].Dir?
    ensures var (entries, archived) := BuildAll(made, sources).value; var ps := PathsOf(sources);
      && |entries| == |ps| && |archived| == |Content(fs, ps)| && Content(made, ps) == Content(fs, ps)
      && (forall i :: 0 <= i < |ps| ==> entries[i] == EntryFor(fs, ps[i]) && (ps[i] in fs || !Blocked(fs, ps[i])))
  {
    var ps := PathsOf(sources);
    BuildAllRecords(made, sources);
    ContentAgree(fs, made, ps);
    forall i | 0 <= i < |ps|
      ensures EntryFor(made, ps[i]) == EntryFor(fs, ps[i]) && (ps[i] in fs || !Blocked(fs, ps[i]))
    {
      assert ps[i] in ps;
      BlockedSame(fs, made, dir, ps[i]);
    }
  }

  lemma BlockedSame(fs: Fs, made: Fs, dir: Path, p: Path)
    requires Apart(p, dir)
    requires forall q :: q in fs ==> q in made && made[q] == fs[q]
    requires forall q :: q in made && q !in fs ==> Within(q, dir) && made[q].Dir?
    ensures Blocked(fs, p) == Blocked(made, p)
  {
    if Blocked(fs, p) {
      var k: nat :| k < |p| && IsFile(fs, p[..k]);
      assert IsFile(made, p[..k]);
    }
    if Blocked(made, p) {
      var k: nat :| k < |p| && IsFile(made, p[..k]);
      assert IsFile(fs, p[..k]);
    }
  }

  lemma ArchiveWritten(tar: Tar, made: Fs, dir: Path, sources: seq<string>)
    requires WellFormed(made) && IsDir(made, dir) && AllAbs(sources) && BuildAll(made, sources).Some?
    requires forall p :: p in PathsOf(sources) ==> Apart(p, dir)
    requires CreateArchive(tar, made, dir + [ARCHIVE_NAME], BuildAll(made, sources).value.1).1
    ensures var fs' := CreateArchive(tar, made, dir + [ARCHIVE_NAME], BuildAll(made, sources).value.1).0;
      var archive := dir + [ARCHIVE_NAME];
      IsFile(fs', archive) && fs'[archive].data == tar.pack(Content(made, PathsOf(sources)))
  {
    var archive, archived := dir + [ARCHIVE_NAME], BuildAll(made, sources).value.1;
    assert Parent(archive) == dir;
    MkdirAllMakes(made, dir);
    var made' := MkdirAll(made, dir).value;
    var opened_ := Overwrite(made', archive, "", FILE_MODE).value;
    forall p | p in PathsOf(sources)
      ensures (p in made <==> p in opened_) && (p in made ==> made[p] == opened_[p])
    {
      assert Within(dir, archive);
    }
    BuildAllRecords(made, sources);
    ReadSourcesAgree(made, opened_, sources);
  }

  // ---------------------------------------------------------------- extracting a snapshot

  function Dest(t: Path, p: Path): Path {
    t + ([FILES] + p)
  }

  lemma DestAbove(t: Path, p: Path, q: Path)
    ensures Above(Dest(t, p), Dest(t, q)) <==> Above(p, q)
    ensures Dest(t, p) == Dest(t, q) <==> p == q
    ensures Above(t, Dest(t, p))
  {
    assert Dest(t, p)[..|t|] == t;
    assert Dest(t, p)[|t| + 1..] == p && Dest(t, q)[|t| + 1..] == q;
    if Above(p, q) {
      assert q == p + q[|p|..];
      assert Dest(t, q) == Dest(t, p) + q[|p|..];
    }
    if Above(Dest(t, p), Dest(t, q)) {
      assert Dest(t, q)[..|Dest(t, p)|][|t| + 1..] == q[..|p|];
    }
  }

  /** A copy of a snapshotted file, or a directory on the way to one. */
  ghost predicate IsCopy(fs0: Fs, t: Path, q: Path, n: Node) {
    exists p :: IsFile(fs0, p) && ((q == Dest(t, p) && n.File? && n.data == fs0[p].data)
                                   || (Above(q, Dest(t, p)) && n.Dir?))
  }

  /** Under the directory lie only copies of files that fs0 had, and directories above them. */
  ghost predicate OnlyCopies(fs0: Fs, fs: Fs, t: Path) {
    forall q :: q in fs && Above(t, q) ==> IsCopy(fs0, t, q, fs[q])
  }

  lemma CopyFits(fs0: Fs, fs: Fs, t: Path, p: Path)
    requires WellFormed(fs0) && WellFormed(fs) && IsDir(fs, t) && OnlyCopies(fs0, fs, t)
    requires IsFile(fs0, p)
    ensures !IsDir(fs, Dest(t, p)) && !Blocked(fs, Dest(t, p))
    ensures Dest(t, p) in fs ==> fs[Dest(t, p)].data == fs0[p].data
  {
    var d := Dest(t, p);
    DestAbove(t, p, p);
    if d in fs {
      assert IsCopy(fs0, t, d, fs[d]);
      var p' :| IsFile(fs0, p') && ((d == Dest(t, p') && fs[d].File? && fs[d].data == fs0[p'].data)
                                    || (Above(d, Dest(t, p')) && fs[d].Dir?));
      DestAbove(t, p, p');
      NotBelowFile(fs0, p, p');
    }
    forall k: nat | k < |d|
      ensures !IsFile(fs, d[..k])
    {
      var q := d[..k];
      PrefixCompare(q, t, d);
      if k < |t| {
        AncestorIsDir(fs, t, k);
      } else if k > |t| && IsFile(fs, q) {
        assert IsCopy(fs0, t, q, fs[q]);
        var p' :| IsFile(fs0, p') && ((q == Dest(t, p') && fs[q].File? && fs[q].data == fs0[p'].data)
                                      || (Above(q, Dest(t, p')) && fs[q].Dir?));
        DestAbove(t, p', p);
        NotBelowFile(fs0, p', p);
      }
    }
  }

  lemma NotBelowFile(fs: Fs, p: Path, q: Path)
    requires WellFormed(fs) && IsFile(fs, p) && q in fs
    ensures !Above(p, q)
  {
    if Above(p, q) {
      AncestorIsDir(fs, q, |p|);
    }
  }

  lemma CopyKeeps(fs0: Fs, fs: Fs, fs': Fs, t: Path, p: Path)
    requires OnlyCopies(fs0, fs, t) && IsFile(fs0, p)
    requires IsFile(fs', Dest(t, p)) && fs'[Dest(t, p)].data == fs0[p].data
    requires forall q :: q in fs' && q in fs && q != Dest(t, p) ==> fs'[q] == fs[q]
    requires forall q :: q in fs' && q !in fs && q != Dest(t, p) ==> Above(q, Dest(t, p)) && fs'[q].Dir?
    ensures OnlyCopies(fs0, fs', t)
  {
    forall q | q in fs' && Above(t, q)
      ensures IsCopy(fs0, t, q, fs'[q])
    {
      if q in fs && q != Dest(t, p) { assert IsCopy(fs0, t, q, fs[q]); }
    }
  }

  lemma ParentsMade(fs: Fs, p: Path)
    requires WellFormed(fs) && p != [] && !Blocked(fs, p)
    ensures MkdirAll(fs, Parent(p)).Some?
    ensures var made := MkdirAll(fs, Parent(p)).value;
      && WellFormed(made) && (p in made <==> p in fs) && !Blocked(made, p) && IsDir(made, Parent(p))
      && (forall q :: q in fs ==> q in made && made[q] == fs[q])
      && (forall q :: q in made && q !in fs ==> Above(q, p) && made[q] == Dir)
  {
    if Blocked(fs, Parent(p)) || IsFile(fs, Parent(p)) {
      BlockedBelow(fs, Parent(p), p);
      assert false;
    }
    MkdirAllMakes(fs, Parent(p));
    assert Within(Parent(p), Parent(p));
    MadeStill(fs, MkdirAll(fs, Parent(p)).value, p);
  }

  /** Making the parents of a path does not touch the path or block it. */
  lemma MadeStill(fs: Fs, made: Fs, p: Path)
    requires p != [] && !Blocked(fs, p)
    requires forall q :: q in fs ==> q in made && made[q] == fs[q]
    requires forall q :: q in made && q !in fs ==> Within(q, Parent(p)) && made[q].Dir?
    ensures (p in made <==> p in fs) && !Blocked(made, p)
  {
    forall k: nat | k < |p|
      ensures !IsFile(made, p[..k])
    {
      assert !IsFile(fs, p[..k]);
    }
  }

  /** Extracting one file of the snapshot: it lands, and the directory still holds only copies. */
  lemma CopyLands(fs0: Fs, fs: Fs, t: Path, p: Path)
    requires WellFormed(fs0) && WellFormed(fs) && ValidPath(t) && t != [] && IsDir(fs, t) && OnlyCopies(fs0, fs, t)
    requires IsFile(fs0, p) && ValidPath(p) && p != []
    ensures var e := TarEntry(ArchiveName(Render(p)), true, fs0[p].mode, fs0[p].data);
      var (fs', ok) := ExtractOne(fs, Render(t), e);
      && ok && WellFormed(fs') && IsDir(fs', t) && OnlyCopies(fs0, fs', t)
      && IsFile(fs', Dest(t, p))
      && (forall q :: IsFile(fs, q) ==> IsFile(fs', q))
  {
    var d := Dest(t, p);
    SnapshotLands(t, p);
    CopyFits(fs0, fs, t, p);
    ParentsMade(fs, d);
    var made := MkdirAll(fs, Parent(d)).value;
    OverwriteMakes(made, d, fs0[p].data, fs0[p].mode % 512);
    var fs' := Overwrite(made, d, fs0[p].data, fs0[p].mode % 512).value;
    assert t != d by { DestAbove(t, p, p); }
    CopyKeeps(fs0, fs, fs', t, p);
  }

  /** Extracting the whole snapshot puts a copy of every listed file under the directory. */
  lemma {:induction false} SnapshotExtracts(fs0: Fs, fs: Fs, t: Path, ps: seq<Path>)
    requires WellFormed(fs0) && WellFormed(fs) && ValidPath(t) && t != [] && IsDir(fs, t) && OnlyCopies(fs0, fs, t)
    requires forall p :: p in ps && IsFile(fs0, p) ==> ValidPath(p) && p != []
    ensures var (fs', ok) := ExtractAll(fs, Render(t), Content(fs0, ps));
      && ok && WellFormed(fs') && IsDir(fs', t) && OnlyCopies(fs0, fs', t)
      && (forall p :: p in ps && IsFile(fs0, p) ==> IsFile(fs', Dest(t, p)))
      && (forall q :: IsFile(fs, q) ==> IsFile(fs', q))
    decreases |ps|
  {
    if ps != [] {
      var p, content := ps[0], Content(fs0, ps);
      assert p in ps;
      if IsFile(fs0, p) {
        CopyLands(fs0, fs, t, p);
        assert content[1..] == Content(fs0, ps[1..]);
        SnapshotExtracts(fs0, ExtractOne(fs, Render(t), content[0]).0, t, ps[1..]);
      } else {
        assert content == Content(fs0, ps[1..]);
        SnapshotExtracts(fs0, fs, t, ps[1..]);
      }
    }
  }
}
