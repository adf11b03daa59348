/** Snapshot archives: the names files get inside an archive, writing one, and extracting one
    under a directory with the lexical containment check. */
module Archive {
  import opened Text
  import opened Paths
  import opened FileSystem

  datatype TarEntry = TarEntry(name: string, regular: bool, mode: nat, data: string)

  /** tar and gzip together, as a pair of functions between entry lists and file content. */
  datatype Tar = Tar(pack: seq<TarEntry> -> string, unpack: string -> Option<seq<TarEntry>>)

  ghost predicate Faithful(tar: Tar) {
    forall es :: tar.unpack(tar.pack(es)) == Some(es)
  }

  const FILES: string := "files"
  const ROOT_NAME: string := "root"

  /** The archive name buildEntry derives from a cleaned source path. */
  function ArchiveName(clean: string): string {
    var relative := if IsAbs(clean) then clean[1..] else clean;
    JoinPath(FILES, if relative == "" then ROOT_NAME else relative)
  }

  /** For a clean absolute path other than the root the name is the path moved below files/. */
  lemma ArchiveNameIs(p: Path)
    requires ValidPath(p) && p != []
    ensures ArchiveName(Render(p)) == Join([FILES] + p, "/") && Split(ArchiveName(Render(p)), '/') == [FILES] + p
    ensures !IsAbs(ArchiveName(Render(p)))
  {
    var names := [FILES] + p;
    assert ValidName(FILES);
    assert Render(p)[1..] == Join(p, "/");
    JoinNonEmpty(p);
    assert names[1..] == p;
    assert FILES + "/" + Join(p, "/") == Join(names, "/");
    NamesSplit(names);
    NormalizeNames(false, names, []);
    assert [] + names == names;
    assert Join(names, "/")[0] == 'f';
  }

  lemma JoinNonEmpty(p: Path)
    requires ValidPath(p) && p != []
    ensures Join(p, "/") != ""
  {
    assert ValidName(p[0]);
  }

  /** Distinct files get distinct names. */
  lemma ArchiveNameInjective(p: Path, q: Path)
    requires ValidPath(p) && ValidPath(q) && p != [] && q != []
    requires ArchiveName(Render(p)) == ArchiveName(Render(q))
    ensures p == q
  {
    ArchiveNameIs(p);
    ArchiveNameIs(q);
    assert ([FILES] + p)[1..] == p && ([FILES] + q)[1..] == q;
  }

  // ---------------------------------------------------------------- extraction

  /** Where an entry lands, when the lexical check lets it. */
  function Destination(dest: string, name: string): (r: Option<Path>)
    requires IsAbs(dest)
    ensures r.Some? ==> r.value != []
  {
    var path := JoinPath(dest, name);
    if !HasPrefix(Clean(path), Clean(dest) + "/") then None
    else if Clean(path) == Clean(dest) then None
    else Some(Components(path))
  }

  /** The check admits an entry exactly when it lands properly below a destination other than the
      root; landing on the destination itself is already refused by the prefix test. */
  lemma DestinationBelow(d: Path, name: string)
    requires ValidPath(d)
    ensures var landed := Components(Render(d) + "/" + name);
      Destination(Render(d), name) == if d != [] && Above(d, landed) then Some(landed) else None
  {
    var p := Render(d) + "/" + name;
    var landed := Components(p);
    assert p[0] == '/';
    ComponentsValid(p);
    RenderComponents(landed);
    RenderComponents(d);
    PrefixMeansAbove(d, landed);
    assert Render(landed) == Render(d) ==> landed == d;
  }

  /** An archive name made by ArchiveName is admitted and lands below dest/files. */
  lemma SnapshotLands(d: Path, p: Path)
    requires ValidPath(d) && d != [] && ValidPath(p) && p != []
    ensures Destination(Render(d), ArchiveName(Render(p))) == Some(d + ([FILES] + p))
    ensures Components(JoinPath(Render(d), ArchiveName(Render(p)))) == d + ([FILES] + p)
  {
    var names := [FILES] + p;
    assert ValidName(FILES);
    ArchiveNameIs(p);
    JoinBelow(d, names);
    DestinationBelow(d, ArchiveName(Render(p)));
    assert (d + names)[..|d|] == d;
    RenderComponents(d + names);
  }

  /** One entry: links and directories are skipped. The flag is false when extraction stops. */
  function ExtractOne(fs: Fs, dest: string, e: TarEntry): (Fs, bool)
    requires IsAbs(dest)
  {
    if !e.regular then (fs, true)
    else
      match Destination(dest, e.name)
      case None => (fs, false)
      case Some(path) =>
        match MkdirAll(fs, Parent(path))
        case None => (fs, false)
        case Some(made) =>
          match Overwrite(made, path, e.data, e.mode % 512)
          case None => (made, false)
          case Some(fs') => (fs', true)
  }

  function ExtractAll(fs: Fs, dest: string, es: seq<TarEntry>): (Fs, bool)
    requires IsAbs(dest)
    decreases |es|
  {
    if es == [] then (fs, true)
    else
      var (fs1, ok) := ExtractOne(fs, dest, es[0]);
      if ok then ExtractAll(fs1, dest, es[1..]) else (fs1, false)
  }

  /** ExtractArchive. */
  function Extract(tar: Tar, fs: Fs, archive: Path, dest: string): (Fs, bool)
    requires IsAbs(dest)
  {
    if !IsFile(fs, archive) then (fs, false)
    else
      match tar.unpack(fs[archive].data)
      case None => (fs, false)
      case Some(es) => ExtractAll(fs, dest, es)
  }

  /** No entry, however named, is extracted outside the destination directory: whatever is not
      below it is left as it was, and only missing ancestors may be added. */
  lemma {:induction false} ExtractStaysBelow(fs: Fs, d: Path, es: seq<TarEntry>, q: Path)
    requires ValidPath(d) && WellFormed(fs) && IsDir(fs, d) && !Above(d, q)
    ensures var fs' := ExtractAll(fs, Render(d), es).0;
      && WellFormed(fs') && IsDir(fs', d)
      && (q in fs <==> q in fs') && (q in fs ==> fs'[q] == fs[q])
    decreases |es|
  {
    if es != [] {
      var (fs1, ok) := ExtractOne(fs, Render(d), es[0]);
      OneStaysBelow(fs, d, es[0], q);
      if ok { ExtractStaysBelow(fs1, d, es[1..], q); }
    }
  }

  lemma OneStaysBelow(fs: Fs, d: Path, e: TarEntry, q: Path)
    requires ValidPath(d) && WellFormed(fs) && IsDir(fs, d) && !Above(d, q)
    ensures var fs' := ExtractOne(fs, Render(d), e).0;
      && WellFormed(fs') && IsDir(fs', d)
      && (q in fs <==> q in fs') && (q in fs ==> fs'[q] == fs[q])
  {
    DestinationBelow(d, e.name);
    if e.regular && Destination(Render(d), e.name).Some? {
      var path := Destination(Render(d), e.name).value;
      if MkdirAll(fs, Parent(path)).Some? {
        var made := MkdirAll(fs, Parent(path)).value;
        MkdirAllMakes(fs, Parent(path));
        ParentsStay(fs, made, d, path, q);
        if Overwrite(made, path, e.data, e.mode % 512).Some? {
          OverwriteMakes(made, path, e.data, e.mode % 512);
        }
      }
    }
  }

  /** Directories made for a path below d are below d, or were there already. */
  lemma ParentsStay(fs: Fs, made: Fs, d: Path, path: Path, q: Path)
    requires WellFormed(fs) && IsDir(fs, d) && Above(d, path) && !Above(d, q)
    requires forall q :: q in fs ==> q in made && made[q] == fs[q]
    requires forall q :: q in made && q !in fs ==> Within(q, Parent(path))
    ensures q in made <==> q in fs
    ensures q != path
  {
    if q in made && q !in fs {
      PrefixCompare(q, d, path);
      if |q| < |d| {
        AncestorIsDir(fs, d, |q|);
      }
      assert false;
    }
  }

  lemma PrefixCompare(q: Path, d: Path, p: Path)
    requires Within(q, p) && Within(d, p)
    ensures if |q| <= |d| then q == d[..|q|] else Above(d, q)
  {
    assert if |q| <= |d| then p[..|q|] == p[..|d|][..|q|] else p[..|d|] == p[..|q|][..|d|];
  }

  lemma OverwriteMakes(fs: Fs, p: Path, data: string, perm: nat)
    requires WellFormed(fs) && p != [] && Overwrite(fs, p, data, perm).Some?
    ensures var fs' := Overwrite(fs, p, data, perm).value;
      && WellFormed(fs') && IsFile(fs', p) && fs'[p].data == data
      && (forall q :: q != p ==> (q in fs <==> q in fs') && (q in fs ==> fs'[q] == fs[q]))
  {
    var fs' := Overwrite(fs, p, data, perm).value;
    NoChild(fs, p);
    forall q | q in fs' && q != []
      ensures Parent(q) in fs' && fs'[Parent(q)].Dir?
    {
      assert q in fs && Parent(q) == p ==> Above(p, q);
    }
  }
}
