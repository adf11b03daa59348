/** Restoring a backup of files, absent paths and directories: exactly when it succeeds, and what
    it leaves, whether it succeeds or stops on the way. */
module Restoration {
  import opened Text
  import opened Paths
  import opened FileSystem
  import opened Archive
  import opened Backup
  import opened Snapshot

  // ---------------------------------------------------------------- what an entry leaves

  /** What Restore leaves at a path it has dealt with. */
  ghost predicate Returned(fs0: Fs, fs1: Fs, fs: Fs, p: Path) {
    if IsFile(fs0, p) then p in fs && fs[p] == File(fs0[p].data, WrittenMode(fs1, p, fs0[p].data, fs0[p].mode))
    else p !in fs
  }

  /** A path Restore was not asked about: as it was, or a new directory above a restored file. */
  ghost predicate LeftAlone(fs0: Fs, fs1: Fs, fs: Fs, done: seq<Path>, q: Path) {
    && (q in fs1 ==> q in fs && fs[q] == fs1[q])
    && (q in fs && q !in fs1 ==> fs[q] == Dir && exists p :: p in done && IsFile(fs0, p) && Above(q, p))
  }

  /** Since the last entry for the path, a file below it has been written, and so its parents made. */
  ghost predicate Rebuilt(fs0: Fs, done: seq<Path>, p: Path) {
    if done == [] then false
    else
      var last := done[|done| - 1];
      last != p && ((IsFile(fs0, last) && Above(p, last)) || Rebuilt(fs0, done[..|done| - 1], p))
  }

  lemma {:induction false} RebuiltMeans(fs0: Fs, done: seq<Path>, p: Path)
    ensures Rebuilt(fs0, done, p)
            <==> exists j :: 0 <= j < |done| && IsFile(fs0, done[j]) && Above(p, done[j]) && p !in done[j..]
  {
    if done != [] {
      var n := |done| - 1;
      var most := done[..n];
      RebuiltMeans(fs0, most, p);
      assert forall j :: 0 <= j < n ==> most[j] == done[j] && done[j..] == most[j..] + [done[n]];
      assert done[n..] == [done[n]];
    }
  }

  /** What lies at a listed path once its entry is done. */
  ghost predicate Left(fs0: Fs, fs1: Fs, fs: Fs, done: seq<Path>, p: Path) {
    if IsDir(fs0, p) then (p in fs <==> Rebuilt(fs0, done, p)) && (p in fs ==> fs[p] == Dir)
    else Returned(fs0, fs1, fs, p)
  }

  /** Where a restore that has not failed has got to. */
  ghost predicate Reached(fs0: Fs, fs1: Fs, copies: Fs, fs: Fs, t: Path, done: seq<Path>) {
    && WellFormed(fs)
    && (forall q :: Within(t, q) ==> (q in fs <==> q in copies) && (q in fs ==> fs[q] == copies[q]))
    && (forall p :: p in done ==> Left(fs0, fs1, fs, done, p))
    && (forall q :: !Within(t, q) && q !in done ==> LeftAlone(fs0, fs1, fs, done, q))
  }

  lemma RebuiltStep(fs0: Fs, done: seq<Path>, p: Path, q: Path)
    ensures Rebuilt(fs0, done + [p], q) <==> q != p && ((IsFile(fs0, p) && Above(q, p)) || Rebuilt(fs0, done, q))
  {
    assert (done + [p])[..|done|] == done;
  }

  /** An entry for a path that was no file takes away what is there. */
  lemma RemovedReached(fs0: Fs, fs1: Fs, copies: Fs, fs: Fs, t: Path, done: seq<Path>, p: Path)
    requires Reached(fs0, fs1, copies, fs, t, done) && !Within(t, p) && !IsFile(fs0, p) && Remove(fs, p).Some?
    ensures Reached(fs0, fs1, copies, Remove(fs, p).value, t, done + [p])
  {
    RemoveMakes(fs, p);
    var fs' := Remove(fs, p).value;
    forall q | q in done + [p]
      ensures Left(fs0, fs1, fs', done + [p], q)
    {
      RebuiltStep(fs0, done, p, q);
      if q in done { assert Left(fs0, fs1, fs, done, q); }
    }
    forall q | !Within(t, q) && q !in done + [p]
      ensures LeftAlone(fs0, fs1, fs', done + [p], q)
    {
      assert LeftAlone(fs0, fs1, fs, done, q);
    }
  }

  /** What a written file does to the rest. */
  ghost predicate Written(fs: Fs, fs': Fs, p: Path, data: string, mode: nat) {
    && WellFormed(fs') && !IsDir(fs, p) && p in fs' && fs'[p] == File(data, WrittenMode(fs, p, data, mode))
    && (forall q :: q in fs && q != p ==> q in fs' && fs'[q] == fs[q])
    && (forall q :: q in fs' && q !in fs && q != p ==> Above(q, p) && fs'[q] == Dir)
  }

  lemma WrittenAt(fs0: Fs, fs1: Fs, copies: Fs, fs: Fs, fs': Fs, t: Path, done: seq<Path>, p: Path)
    requires Reached(fs0, fs1, copies, fs, t, done) && !Within(t, p) && IsFile(fs0, p)
    requires Written(fs, fs', p, fs0[p].data, fs0[p].mode)
    ensures Returned(fs0, fs1, fs', p)
  {
    if p in done {
      assert Left(fs0, fs1, fs, done, p);
    } else {
      assert LeftAlone(fs0, fs1, fs, done, p);
    }
  }

  lemma WrittenKeeps(fs0: Fs, fs1: Fs, copies: Fs, fs: Fs, fs': Fs, t: Path, done: seq<Path>, p: Path, q: Path)
    requires WellFormed(fs0) && Reached(fs0, fs1, copies, fs, t, done) && IsFile(fs0, p) && q in done && q != p
    requires Written(fs, fs', p, fs0[p].data, fs0[p].mode)
    ensures Left(fs0, fs1, fs', done + [p], q)
  {
    assert Left(fs0, fs1, fs, done, q);
    RebuiltStep(fs0, done, p, q);
    if Above(q, p) {
      AncestorIsDir(fs0, p, |q|);
      AncestorIsDir(fs', p, |q|);
    }
  }

  /** An entry for a file puts it back, and makes its parents again. */
  lemma WrittenReached(fs0: Fs, fs1: Fs, copies: Fs, fs: Fs, fs': Fs, t: Path, done: seq<Path>, p: Path)
    requires WellFormed(fs0) && Reached(fs0, fs1, copies, fs, t, done) && !Within(t, p) && IsFile(fs0, p)
    requires Written(fs, fs', p, fs0[p].data, fs0[p].mode)
    ensures Reached(fs0, fs1, copies, fs', t, done + [p])
  {
    forall q | q in done + [p]
      ensures Left(fs0, fs1, fs', done + [p], q)
    {
      if q == p {
        WrittenAt(fs0, fs1, copies, fs, fs', t, done, p);
      } else {
        WrittenKeeps(fs0, fs1, copies, fs, fs', t, done, p, q);
      }
    }
    forall q | !Within(t, q) && q !in done + [p]
      ensures LeftAlone(fs0, fs1, fs', done + [p], q)
    {
      assert LeftAlone(fs0, fs1, fs, done, q);
      assert p in done + [p];
    }
  }

  // ---------------------------------------------------------------- what an entry needs

  /** A proper ancestor of the path is now a file, and no entry has dealt with it. */
  ghost predicate Stopped(fs1: Fs, done: seq<Path>, p: Path) {
    exists k: nat :: k < |p| && IsFile(fs1, p[..k]) && p[..k] !in done
  }

  /** Something lies below the path: a file already restored, something no entry has dealt with, or
      the temporary directory. */
  ghost predicate Occupied(fs0: Fs, fs1: Fs, t: Path, done: seq<Path>, p: Path, compressed: bool) {
    || (exists q :: q in done && IsFile(fs0, q) && Above(p, q))
    || (exists q :: q in fs1 && q !in done && Above(p, q))
    || (compressed && Above(p, t))
  }

  /** What now lies where the file is to go is more than the atomic writer compares with: the file
      itself if an entry has brought it back already, and what was there otherwise. */
  predicate TooLarge(fs0: Fs, fs1: Fs, done: seq<Path>, p: Path) {
    var there := if p in done then fs0 else fs1;
    IsFile(there, p) && |there[p].data| > MAX_COMPARE
  }

  /** The entry of a path can be restored after the entries of the others. */
  ghost predicate Goes(env: Env, fs0: Fs, fs1: Fs, t: Path, done: seq<Path>, p: Path, compressed: bool) {
    && UnderHome(env, Render(p)) && !Stopped(fs1, done, p)
    && if IsFile(fs0, p) then (p in done || !IsDir(fs1, p)) && !TooLarge(fs0, fs1, done, p)
       else !Occupied(fs0, fs1, t, done, p, compressed)
  }

  /** The listed files lie extracted under t. */
  ghost predicate Copied(fs0: Fs, copies: Fs, t: Path, ps: seq<Path>, compressed: bool) {
    forall p :: p in ps && IsFile(fs0, p) ==>
      compressed && ValidPath(p) && p != [] && IsFile(copies, Dest(t, p)) && copies[Dest(t, p)].data == fs0[p].data
  }

  /** The entry of a file, its copy extracted. */
  lemma RestoreOneIs(env: Env, fs: Fs, t: Path, p: Path, data: string, mode: nat)
    requires ValidPath(t) && t != [] && ValidPath(p) && p != []
    requires IsFile(fs, Dest(t, p)) && fs[Dest(t, p)].data == data
    ensures RestoreOne(env, Render(t), fs, ManifestEntry(Render(p), ArchiveName(Render(p)), true, mode), true)
         == if !UnderHome(env, Render(p)) then (fs, false)
            else
              match MkdirAll(fs, Parent(p))
              case None => (fs, false)
              case Some(made) =>
                match WriteFileAtomic(made, p, data, mode)
                case None => (made, false)
                case Some(fs') => (fs', true)
  {
    RenderComponents(p);
    ArchiveNameIs(p);
    SnapshotLands(t, p);
  }

  /** Making the parents and writing the file, as one step. */
  lemma MadeThenWritten(fs: Fs, p: Path, data: string, mode: nat)
    requires WellFormed(fs) && p != [] && MkdirAll(fs, Parent(p)).Some?
    requires WriteFileAtomic(MkdirAll(fs, Parent(p)).value, p, data, mode).Some?
    ensures Written(fs, WriteFileAtomic(MkdirAll(fs, Parent(p)).value, p, data, mode).value, p, data, mode)
  {
    var made := MkdirAll(fs, Parent(p)).value;
    MkdirAllMakes(fs, Parent(p));
    MadeAbove(fs, made, p);
    WriteMakes(made, p, data, mode);
  }

  lemma MadeAbove(fs: Fs, made: Fs, p: Path)
    requires p != [] && (forall q :: q in fs ==> q in made && made[q] == fs[q])
    requires forall q :: q in made && q !in fs ==> Within(q, Parent(p))
    requires forall q :: Within(q, Parent(p)) ==> IsDir(made, q)
    ensures (p in made <==> p in fs) && forall q :: q in made && q !in fs ==> Above(q, p) && made[q] == Dir
    ensures forall data, mode :: WrittenMode(made, p, data, mode) == WrittenMode(fs, p, data, mode)
  {
  }

  /** The parents of a path that is there are there. */
  lemma NothingMade(fs: Fs, p: Path)
    requires WellFormed(fs) && p in fs && p != [] && MkdirAll(fs, Parent(p)).Some?
    ensures MkdirAll(fs, Parent(p)).value == fs
  {
    var made := MkdirAll(fs, Parent(p)).value;
    MkdirAllMakes(fs, Parent(p));
    MadeAbove(fs, made, p);
    forall q | q in made
      ensures q in fs
    {
      if q !in fs { AncestorIsDir(fs, p, |q|); }
    }
  }

  lemma ParentsBlocked(fs: Fs, p: Path)
    requires WellFormed(fs) && p != []
    ensures Blocked(fs, p) <==> MkdirAll(fs, Parent(p)).None?
  {
    if Blocked(fs, p) {
      var k: nat :| k < |p| && IsFile(fs, p[..k]);
      assert Parent(p)[..k] == p[..k];
      assert k < |p| - 1 ==> Blocked(fs, Parent(p));
    } else {
      ParentsMade(fs, p);
    }
  }

  /** Making the parents and writing the file fails without having made anything. */
  lemma WriteFails(fs: Fs, p: Path, data: string, mode: nat)
    requires WellFormed(fs) && p != [] && MkdirAll(fs, Parent(p)).Some?
    ensures WriteFileAtomic(MkdirAll(fs, Parent(p)).value, p, data, mode).None?
            <==> IsDir(fs, p) || (IsFile(fs, p) && |fs[p].data| > MAX_COMPARE)
    ensures WriteFileAtomic(MkdirAll(fs, Parent(p)).value, p, data, mode).None? ==> MkdirAll(fs, Parent(p)).value == fs
  {
    ParentsBlocked(fs, p);
    ParentsMade(fs, p);
    WriteMakes(MkdirAll(fs, Parent(p)).value, p, data, mode);
    if p in fs { NothingMade(fs, p); }
  }

  lemma FileEntryIff(env: Env, fs: Fs, t: Path, p: Path, data: string, mode: nat)
    requires WellFormed(fs) && ValidPath(t) && t != [] && ValidPath(p) && p != []
    requires IsFile(fs, Dest(t, p)) && fs[Dest(t, p)].data == data
    ensures var (fs', ok) := RestoreOne(env, Render(t), fs,
                                        ManifestEntry(Render(p), ArchiveName(Render(p)), true, mode), true);
      && (ok <==>
          && UnderHome(env, Render(p)) && !Blocked(fs, p) && !IsDir(fs, p)
          && (IsFile(fs, p) ==> |fs[p].data| <= MAX_COMPARE))
      && (ok ==> Written(fs, fs', p, data, mode)) && (!ok ==> fs' == fs)
  {
    RestoreOneIs(env, fs, t, p, data, mode);
    ParentsBlocked(fs, p);
    if MkdirAll(fs, Parent(p)).Some? {
      WriteFails(fs, p, data, mode);
      if WriteFileAtomic(MkdirAll(fs, Parent(p)).value, p, data, mode).Some? { MadeThenWritten(fs, p, data, mode); }
    }
  }

  lemma RemovalEntryIff(env: Env, fs: Fs, tempDir: string, p: Path, compressed: bool)
    requires WellFormed(fs) && ValidPath(p)
    ensures var (fs', ok) := RestoreOne(env, tempDir, fs, ManifestEntry(Render(p), "", false, 0), compressed);
      && (ok <==> UnderHome(env, Render(p)) && !Blocked(fs, p) && !HasChild(fs, p))
      && (ok ==> Remove(fs, p) == Some(fs')) && (!ok ==> fs' == fs)
  {
    RenderComponents(p);
    if UnderHome(env, Render(p)) { PrefixedNotRoot(Render(p), env.home); }
    if q :| q in fs && Above(p, q) { AncestorIsDir(fs, q, |p|); }
  }

  lemma {:induction false} RebuiltByFile(fs0: Fs, done: seq<Path>, p: Path) returns (f: Path)
    requires Rebuilt(fs0, done, p)
    ensures f in done && IsFile(fs0, f) && Above(p, f)
  {
    var last := done[|done| - 1];
    if IsFile(fs0, last) && Above(p, last) {
      f := last;
    } else {
      f := RebuiltByFile(fs0, done[..|done| - 1], p);
    }
  }

  lemma NotWithinPrefix(t: Path, p: Path, k: nat)
    requires k <= |p|
    ensures Within(t, p[..k]) ==> Within(t, p)
  {
    assert |t| <= k ==> p[..k][..|t|] == p[..|t|];
  }

  /** The ancestors of a listed path were no files, so only what has come since can be in the way. */
  lemma StoppedIff(fs0: Fs, fs1: Fs, copies: Fs, fs: Fs, t: Path, done: seq<Path>, p: Path)
    requires Reached(fs0, fs1, copies, fs, t, done) && !Blocked(fs0, p) && !Within(t, p)
    ensures Blocked(fs, p) <==> Stopped(fs1, done, p)
  {
    forall k: nat | k < |p|
      ensures IsFile(fs, p[..k]) <==> IsFile(fs1, p[..k]) && p[..k] !in done
    {
      var a := p[..k];
      NotWithinPrefix(t, p, k);
      if a in done {
        assert Left(fs0, fs1, fs, done, a);
      } else {
        assert LeftAlone(fs0, fs1, fs, done, a);
      }
    }
  }

  lemma PrefixesCompare(p: Path, t: Path, q: Path)
    requires Above(p, q) && Within(t, q)
    ensures Within(t, p) || Above(p, t)
  {
    if |t| <= |p| {
      assert p[..|t|] == q[..|t|];
    } else {
      assert t[..|p|] == q[..|p|];
    }
  }

  lemma TempOccupies(copies: Fs, fs: Fs, t: Path, p: Path, q: Path)
    requires WellFormed(fs) && !Within(t, p) && q in fs && Above(p, q) && Within(t, q)
    requires forall r :: Within(t, r) ==> (r in fs <==> r in copies)
    ensures t in copies && Above(p, t)
  {
    PrefixesCompare(p, t, q);
    assert q[..|t|] == t && Within(t, t);
    if |t| < |q| {
      AncestorIsDir(fs, q, |t|);
    } else {
      assert q == t;
    }
  }

  /** What lies below the path, seen from what was there and what has been done. */
  lemma ChildOccupies(fs0: Fs, fs1: Fs, copies: Fs, fs: Fs, t: Path, done: seq<Path>, p: Path, q: Path)
    requires WellFormed(fs0) && Reached(fs0, fs1, copies, fs, t, done) && !Within(t, p) && q in fs && Above(p, q)
    ensures Occupied(fs0, fs1, t, done, p, t in copies)
  {
    if Within(t, q) {
      TempOccupies(copies, fs, t, p, q);
    } else if q in done {
      assert Left(fs0, fs1, fs, done, q);
      if IsDir(fs0, q) {
        var f := RebuiltByFile(fs0, done, q);
        AboveTwice(p, q, f);
      }
    } else {
      assert LeftAlone(fs0, fs1, fs, done, q);
      if q !in fs1 {
        var f :| f in done && IsFile(fs0, f) && Above(q, f);
        AboveTwice(p, q, f);
      }
    }
  }

  lemma AboveTwice(p: Path, q: Path, f: Path)
    requires Above(p, q) && Above(q, f)
    ensures Above(p, f)
  {
    assert f[..|p|] == q[..|p|];
  }

  lemma OccupiedHasChild(fs0: Fs, fs1: Fs, copies: Fs, fs: Fs, t: Path, done: seq<Path>, p: Path)
    requires WellFormed(fs0) && WellFormed(fs1) && FreshTemp(fs1, t) && Reached(fs0, fs1, copies, fs, t, done)
    requires Occupied(fs0, fs1, t, done, p, t in copies)
    ensures HasChild(fs, p)
  {
    if q :| q in done && IsFile(fs0, q) && Above(p, q) {
      assert Left(fs0, fs1, fs, done, q);
    } else if q :| q in fs1 && q !in done && Above(p, q) {
      NoChild(fs1, t);
      assert Within(t, q) ==> q == t || Above(t, q);
      assert LeftAlone(fs0, fs1, fs, done, q);
    } else {
      assert Within(t, t);
    }
  }

  lemma FileThere(fs0: Fs, fs1: Fs, copies: Fs, fs: Fs, t: Path, done: seq<Path>, p: Path)
    requires WellFormed(fs0) && Reached(fs0, fs1, copies, fs, t, done) && IsFile(fs0, p) && !Within(t, p)
    ensures IsDir(fs, p) <==> p !in done && IsDir(fs1, p)
    ensures IsFile(fs, p) && |fs[p].data| > MAX_COMPARE <==> TooLarge(fs0, fs1, done, p)
  {
    if p in done {
      assert Left(fs0, fs1, fs, done, p);
    } else {
      assert LeftAlone(fs0, fs1, fs, done, p);
      if p in fs && p !in fs1 {
        var f :| f in done && IsFile(fs0, f) && Above(p, f);
        NotBelowFile(fs0, p, f);
      }
    }
  }

  /** In a restore that has come this far an entry goes through exactly when it can, and one that
      does not go through leaves everything as it is. */
  lemma EntryIff(env: Env, fs0: Fs, fs1: Fs, copies: Fs, fs: Fs, t: Path, done: seq<Path>, p: Path, compressed: bool)
    requires WellFormed(fs0) && WellFormed(fs1) && FreshTemp(fs1, t) && Reached(fs0, fs1, copies, fs, t, done)
    requires ValidPath(p) && !Within(t, p) && !Blocked(fs0, p)
    requires Copied(fs0, copies, t, [p], compressed) && (t in copies <==> compressed)
    ensures var (fs', ok) := RestoreOne(env, Render(t), fs, EntryFor(fs0, p), compressed);
      && (ok <==> Goes(env, fs0, fs1, t, done, p, compressed))
      && (ok ==> Reached(fs0, fs1, copies, fs', t, done + [p])) && (!ok ==> fs' == fs)
  {
    StoppedIff(fs0, fs1, copies, fs, t, done, p);
    var fs' := RestoreOne(env, Render(t), fs, EntryFor(fs0, p), compressed).0;
    if IsFile(fs0, p) {
      assert p in [p];
      DestAbove(t, p, p);
      assert Within(t, Dest(t, p));
      FileEntryIff(env, fs, t, p, fs0[p].data, fs0[p].mode);
      FileThere(fs0, fs1, copies, fs, t, done, p);
      if Goes(env, fs0, fs1, t, done, p, compressed) { WrittenReached(fs0, fs1, copies, fs, fs', t, done, p); }
    } else {
      RemovalEntryIff(env, fs, Render(t), p, compressed);
      ChildIff(fs0, fs1, copies, fs, t, done, p);
      if Goes(env, fs0, fs1, t, done, p, compressed) { RemovedReached(fs0, fs1, copies, fs, t, done, p); }
    }
  }

  lemma ChildIff(fs0: Fs, fs1: Fs, copies: Fs, fs: Fs, t: Path, done: seq<Path>, p: Path)
    requires WellFormed(fs0) && WellFormed(fs1) && FreshTemp(fs1, t) && Reached(fs0, fs1, copies, fs, t, done)
             && !Within(t, p)
    ensures HasChild(fs, p) <==> Occupied(fs0, fs1, t, done, p, t in copies)
  {
    if Occupied(fs0, fs1, t, done, p, t in copies) { OccupiedHasChild(fs0, fs1, copies, fs, t, done, p); }
    if q :| q in fs && Above(p, q) { ChildOccupies(fs0, fs1, copies, fs, t, done, p, q); }
  }

  // ---------------------------------------------------------------- all of them

  /** How many entries are dealt with before one cannot be. */
  ghost function Stop(env: Env, fs0: Fs, fs1: Fs, t: Path, ps: seq<Path>, compressed: bool, n: nat): (k: nat)
    requires n <= |ps|
    ensures n <= k <= |ps| && (k < |ps| ==> !Goes(env, fs0, fs1, t, ps[..k], ps[k], compressed))
    ensures forall i :: n <= i < k ==> Goes(env, fs0, fs1, t, ps[..i], ps[i], compressed)
    decreases |ps| - n
  {
    if n < |ps| && Goes(env, fs0, fs1, t, ps[..n], ps[n], compressed)
    then Stop(env, fs0, fs1, t, ps, compressed, n + 1)
    else n
  }

  ghost predicate Entries(env: Env, fs0: Fs, copies: Fs, t: Path, ps: seq<Path>, es: seq<ManifestEntry>,
                          compressed: bool) {
    && WellFormed(fs0) && |ps| == |es| && Copied(fs0, copies, t, ps, compressed) && (t in copies <==> compressed)
    && forall i :: 0 <= i < |ps| ==>
         es[i] == EntryFor(fs0, ps[i]) && ValidPath(ps[i]) && !Within(t, ps[i]) && !Blocked(fs0, ps[i])
  }

  /** The n-th entry. */
  lemma NthIff(env: Env, fs0: Fs, fs1: Fs, copies: Fs, fs: Fs, t: Path, ps: seq<Path>, es: seq<ManifestEntry>,
               compressed: bool, n: nat)
    requires Entries(env, fs0, copies, t, ps, es, compressed) && n < |ps|
    requires WellFormed(fs1) && FreshTemp(fs1, t) && Reached(fs0, fs1, copies, fs, t, ps[..n])
    ensures var (fs', ok) := RestoreOne(env, Render(t), fs, es[n], compressed);
      && (ok <==> Goes(env, fs0, fs1, t, ps[..n], ps[n], compressed))
      && (ok ==> Reached(fs0, fs1, copies, fs', t, ps[..n + 1])) && (!ok ==> fs' == fs)
  {
    EntryAt(env, fs0, copies, t, ps, es, compressed, n);
    EntryIff(env, fs0, fs1, copies, fs, t, ps[..n], ps[n], compressed);
    TakeNext(ps, n);
  }

  lemma EntryAt(env: Env, fs0: Fs, copies: Fs, t: Path, ps: seq<Path>, es: seq<ManifestEntry>, compressed: bool, n: nat)
    requires Entries(env, fs0, copies, t, ps, es, compressed) && n < |ps|
    ensures es[n] == EntryFor(fs0, ps[n]) && Copied(fs0, copies, t, [ps[n]], compressed)
  {
    assert ps[n] in ps;
  }

  lemma TakeNext(ps: seq<Path>, n: nat)
    requires n < |ps|
    ensures ps[..n] + [ps[n]] == ps[..n + 1]
  {
  }

  lemma EntriesStep(env: Env, tempDir: string, fs: Fs, es: seq<ManifestEntry>, n: nat, compressed: bool)
    requires n < |es|
    ensures var (fs', ok) := RestoreOne(env, tempDir, fs, es[n], compressed);
      RestoreEntries(env, tempDir, fs, es[n..], compressed)
      == if ok then RestoreEntries(env, tempDir, fs', es[n + 1..], compressed) else (fs', false)
  {
    assert es[n..][0] == es[n] && es[n..][1..] == es[n + 1..];
  }

  /** The loop deals with the entries before the first that cannot be restored, and stops there. */
  lemma {:induction false} EntriesStop(env: Env, fs0: Fs, fs1: Fs, copies: Fs, fs: Fs, t: Path, ps: seq<Path>,
                                       es: seq<ManifestEntry>, compressed: bool, n: nat)
    requires Entries(env, fs0, copies, t, ps, es, compressed) && n <= |ps|
    requires WellFormed(fs1) && FreshTemp(fs1, t) && Reached(fs0, fs1, copies, fs, t, ps[..n])
    ensures var (fs', ok) := RestoreEntries(env, Render(t), fs, es[n..], compressed);
      var k := Stop(env, fs0, fs1, t, ps, compressed, n);
      (ok <==> k == |ps|) && Reached(fs0, fs1, copies, fs', t, ps[..k])
    decreases |ps| - n
  {
    if n < |ps| {
      NthIff(env, fs0, fs1, copies, fs, t, ps, es, compressed, n);
      EntriesStep(env, Render(t), fs, es, n, compressed);
      if Goes(env, fs0, fs1, t, ps[..n], ps[n], compressed) {
        var fs' := RestoreOne(env, Render(t), fs, es[n], compressed).0;
        EntriesStop(env, fs0, fs1, copies, fs', t, ps, es, compressed, n + 1);
      }
    }
  }

  // ---------------------------------------------------------------- the whole restore

  /** os.MkdirTemp hands out a new directory inside an existing one. */
  ghost predicate FreshTemp(fs: Fs, t: Path) {
    ValidPath(t) && t != [] && t !in fs && IsDir(fs, Parent(t))
  }

  lemma TempMade(fs: Fs, t: Path)
    requires WellFormed(fs) && FreshTemp(fs, t)
    ensures WellFormed(fs[t := Dir]) && forall q :: q in fs[t := Dir] ==> !Above(t, q)
  {
    NoChild(fs, t);
    forall q | q in fs && q != []
      ensures Parent(q) != t
    {
      assert Parent(q) == t ==> Above(t, q);
    }
  }

  /** The archive file is what it was when the backup was stored. */
  predicate Intact(stored: Fs, fs: Fs, snapshotDir: string) {
    var archive := Components(snapshotDir) + [ARCHIVE_NAME];
    archive in stored && archive in fs && fs[archive] == stored[archive]
  }

  /** A backup taken at fs0 and restored at fs1, whatever kinds of nodes its sources are. */
  ghost predicate Taken(env: Env, fs0: Fs, snapshotDir: string, sources: seq<string>, now: int, fs1: Fs, t: Path) {
    && WellFormed(fs0) && WellFormed(fs1) && Faithful(env.tar) && IsAbs(snapshotDir) && AllAbs(sources)
       && FreshTemp(fs1, t)
    && (forall p :: p in PathsOf(sources) ==> Apart(p, Components(snapshotDir)) && !Within(t, p))
    && Create(env, fs0, snapshotDir, sources, now).1.Some?
    && (Create(env, fs0, snapshotDir, sources, now).1.value.compressed
        ==> Intact(Create(env, fs0, snapshotDir, sources, now).0, fs1, snapshotDir))
  }

  lemma {:induction false} PathsValid(sources: seq<string>)
    requires AllAbs(sources)
    ensures forall p :: p in PathsOf(sources) ==> ValidPath(p)
  {
    if sources != [] {
      ComponentsValid(sources[0]);
      assert forall i :: 0 <= i < |sources[1..]| ==> sources[1..][i] == sources[i + 1];
      PathsValid(sources[1..]);
    }
  }

  lemma {:induction false} NoContent(fs0: Fs, ps: seq<Path>)
    requires Content(fs0, ps) == []
    ensures forall p :: p in ps ==> !IsFile(fs0, p)
  {
    if ps != [] { NoContent(fs0, ps[1..]); }
  }

  lemma StartsUnchanged(fs0: Fs, fs1: Fs, t: Path, ps: seq<Path>, copies: Fs)
    requires WellFormed(fs1) && FreshTemp(fs1, t) && WellFormed(fs1[t := Dir])
    requires copies == ExtractAll(fs1[t := Dir], Render(t), Content(fs0, ps)).0 && WellFormed(copies)
    ensures Reached(fs0, fs1, copies, copies, t, [])
  {
    forall q | !Within(t, q)
      ensures LeftAlone(fs0, fs1, copies, [], q)
    {
      ExtractStaysBelow(fs1[t := Dir], t, Content(fs0, ps), q);
    }
  }

  lemma Extracted(env: Env, fs0: Fs, fs1: Fs, t: Path, ps: seq<Path>, archive: Path) returns (copies: Fs)
    requires WellFormed(fs0) && WellFormed(fs1) && Faithful(env.tar) && FreshTemp(fs1, t)
    requires IsFile(fs1, archive) && fs1[archive].data == env.tar.pack(Content(fs0, ps))
    requires forall p :: p in ps ==> ValidPath(p)
    ensures Extract(env.tar, fs1[t := Dir], archive, Render(t)) == (copies, true)
    ensures t in copies && Copied(fs0, copies, t, ps, true) && Reached(fs0, fs1, copies, copies, t, [])
  {
    TempMade(fs1, t);
    SnapshotExtracts(fs0, fs1[t := Dir], t, ps);
    copies := ExtractAll(fs1[t := Dir], Render(t), Content(fs0, ps)).0;
    StartsUnchanged(fs0, fs1, t, ps, copies);
    forall p | p in ps && IsFile(fs0, p)
      ensures copies[Dest(t, p)].data == fs0[p].data
    {
      CopyFits(fs0, copies, t, p);
    }
  }

  /** What the entries start from: the extracted archive, or the disk itself if there is none. */
  lemma Begins(env: Env, fs0: Fs, fs1: Fs, t: Path, ps: seq<Path>, snapshotDir: string, stored: Fs, m: Manifest)
    returns (start: Fs)
    requires WellFormed(fs0) && WellFormed(fs1) && Faithful(env.tar) && FreshTemp(fs1, t) && IsAbs(snapshotDir)
    requires forall p :: p in ps ==> ValidPath(p) && !Within(t, p)
    requires Records(env, fs0, ps, snapshotDir, stored, m) && (m.compressed ==> Intact(stored, fs1, snapshotDir))
    ensures Entries(env, fs0, start, t, ps, m.entries, m.compressed) && Reached(fs0, fs1, start, start, t, [])
    ensures !m.compressed ==> start == fs1
    ensures var (fs, ok) := RestoreEntries(env, Render(t), start, m.entries, m.compressed);
      Restore(env, fs1, m, t) == (if m.compressed then RemoveAll(fs, t) else fs, ok)
  {
    if m.compressed {
      assert ValidName(ARCHIVE_NAME);
      ComponentsChild(snapshotDir, ARCHIVE_NAME);
      start := Extracted(env, fs0, fs1, t, ps, Components(snapshotDir) + [ARCHIVE_NAME]);
    } else {
      start := fs1;
      NoContent(fs0, ps);
    }
    forall i | 0 <= i < |ps|
      ensures !Blocked(fs0, ps[i]) && ps[i] in ps
    {
      if ps[i] in fs0 { ThereNotBlocked(fs0, ps[i]); }
    }
  }

  lemma ThereNotBlocked(fs: Fs, p: Path)
    requires WellFormed(fs) && p in fs
    ensures !Blocked(fs, p)
  {
    forall k: nat | k < |p|
      ensures !IsFile(fs, p[..k])
    {
      AncestorIsDir(fs, p, k);
    }
  }

  /** What a restore that succeeds leaves: every listed path as its entry says, nothing else
      changed but new directories above restored files. */
  ghost predicate Settled(fs0: Fs, fs1: Fs, fs2: Fs, ps: seq<Path>) {
    && (forall p :: p in ps ==> Left(fs0, fs1, fs2, ps, p))
    && (forall q :: q !in ps ==> LeftAlone(fs0, fs1, fs2, ps, q))
  }

  lemma TempGone(fs0: Fs, fs1: Fs, copies: Fs, fs: Fs, t: Path, ps: seq<Path>)
    requires WellFormed(fs1) && FreshTemp(fs1, t) && Reached(fs0, fs1, copies, fs, t, ps)
    requires forall p :: p in ps ==> !Within(t, p)
    ensures Settled(fs0, fs1, RemoveAll(fs, t), ps)
  {
    var fs2 := RemoveAll(fs, t);
    NoChild(fs1, t);
    forall p | p in ps
      ensures Left(fs0, fs1, fs2, ps, p)
    {
      assert Left(fs0, fs1, fs, ps, p);
    }
    forall q | q !in ps
      ensures LeftAlone(fs0, fs1, fs2, ps, q)
    {
      if Within(t, q) {
        assert q == t || Above(t, q);
      } else {
        assert LeftAlone(fs0, fs1, fs, ps, q);
      }
    }
  }

  lemma NothingToRemove(fs0: Fs, fs1: Fs, fs: Fs, t: Path, ps: seq<Path>)
    requires Reached(fs0, fs1, fs1, fs, t, ps)
    ensures Settled(fs0, fs1, fs, ps)
  {
    forall q | q !in ps
      ensures LeftAlone(fs0, fs1, fs, ps, q)
    {
      assert Within(t, q) || LeftAlone(fs0, fs1, fs, ps, q);
    }
  }

  /** A backup was made of something, so that it has an archive. */
  predicate HasFile(fs0: Fs, ps: seq<Path>) {
    exists i :: 0 <= i < |ps| && IsFile(fs0, ps[i])
  }

  lemma {:induction false} ContentIff(fs0: Fs, ps: seq<Path>)
    ensures Content(fs0, ps) != [] <==> HasFile(fs0, ps)
  {
    if ps != [] {
      ContentIff(fs0, ps[1..]);
      if IsFile(fs0, ps[0]) {
        assert HasFile(fs0, ps);
      } else {
        if i :| 0 <= i < |ps| && IsFile(fs0, ps[i]) { assert ps[1..][i - 1] == ps[i]; }
        if i :| 0 <= i < |ps[1..]| && IsFile(fs0, ps[1..][i]) { assert ps[i + 1] == ps[1..][i]; }
      }
    }
  }

  /** Whatever the sources are and whatever happened since, a restore stops at the first entry that
      cannot be restored and succeeds when there is none. The paths listed before that entry are
      then as their entries say, and nothing else has changed but new directories above restored
      files. */
  lemma RestoreStops(env: Env, fs0: Fs, snapshotDir: string, sources: seq<string>, now: int, fs1: Fs, t: Path)
    requires Taken(env, fs0, snapshotDir, sources, now, fs1, t)
    ensures var (fs2, ok) := Restore(env, fs1, Create(env, fs0, snapshotDir, sources, now).1.value, t);
      var ps := PathsOf(sources);
      var k := Stop(env, fs0, fs1, t, ps, HasFile(fs0, ps), 0);
      (ok <==> k == |ps|) && Settled(fs0, fs1, fs2, ps[..k])
  {
    var ps, created := PathsOf(sources), Create(env, fs0, snapshotDir, sources, now);
    PathsValid(sources);
    CreateRecords(env, fs0, snapshotDir, sources, now);
    ContentIff(fs0, ps);
    RecordedStops(env, fs0, ps, snapshotDir, created.0, created.1.value, fs1, t);
  }

  lemma RecordedStops(env: Env, fs0: Fs, ps: seq<Path>, snapshotDir: string, stored: Fs, m: Manifest, fs1: Fs, t: Path)
    requires WellFormed(fs0) && WellFormed(fs1) && Faithful(env.tar) && FreshTemp(fs1, t) && IsAbs(snapshotDir)
    requires forall p :: p in ps ==> ValidPath(p) && !Within(t, p)
    requires Records(env, fs0, ps, snapshotDir, stored, m) && (m.compressed ==> Intact(stored, fs1, snapshotDir))
    ensures var (fs2, ok) := Restore(env, fs1, m, t); var k := Stop(env, fs0, fs1, t, ps, m.compressed, 0);
      (ok <==> k == |ps|) && Settled(fs0, fs1, fs2, ps[..k])
  {
    var start := Begins(env, fs0, fs1, t, ps, snapshotDir, stored, m);
    assert ps[..0] == [] && m.entries[0..] == m.entries;
    EntriesStop(env, fs0, fs1, start, start, t, ps, m.entries, m.compressed, 0);
    var fs := RestoreEntries(env, Render(t), start, m.entries, m.compressed).0;
    var k := Stop(env, fs0, fs1, t, ps, m.compressed, 0);
    if m.compressed {
      assert forall p :: p in ps[..k] ==> p in ps;
      TempGone(fs0, fs1, start, fs, t, ps[..k]);
    } else {
      NothingToRemove(fs0, fs1, fs, t, ps[..k]);
    }
  }

  /** A restore succeeds exactly when each entry can be restored after the ones before it. */
  lemma RestoreIff(env: Env, fs0: Fs, snapshotDir: string, sources: seq<string>, now: int, fs1: Fs, t: Path)
    requires Taken(env, fs0, snapshotDir, sources, now, fs1, t)
    ensures var ps := PathsOf(sources);
      Restore(env, fs1, Create(env, fs0, snapshotDir, sources, now).1.value, t).1
      <==> forall i :: 0 <= i < |ps| ==> Goes(env, fs0, fs1, t, ps[..i], ps[i], HasFile(fs0, ps))
  {
    RestoreStops(env, fs0, snapshotDir, sources, now, fs1, t);
  }

  /** Then every listed path is as its entry says, and nothing else has changed but new directories
      above restored files. */
  lemma RestoreSettles(env: Env, fs0: Fs, snapshotDir: string, sources: seq<string>, now: int, fs1: Fs, t: Path)
    requires Taken(env, fs0, snapshotDir, sources, now, fs1, t)
    requires Restore(env, fs1, Create(env, fs0, snapshotDir, sources, now).1.value, t).1
    ensures Settled(fs0, fs1, Restore(env, fs1, Create(env, fs0, snapshotDir, sources, now).1.value, t).0,
                    PathsOf(sources))
  {
    var ps := PathsOf(sources);
    RestoreStops(env, fs0, snapshotDir, sources, now, fs1, t);
    assert ps[..|ps|] == ps;
  }

  /** The path is what it was, its mode aside. */
  predicate AsItWas(fs0: Fs, fs2: Fs, p: Path) {
    && (p in fs2 <==> p in fs0)
    && (p in fs0 ==> if fs0[p].Dir? then fs2[p].Dir? else fs2[p].File? && fs2[p].data == fs0[p].data)
  }

  /** After a restore that succeeds a listed path is what it was exactly when it was not a
      directory, or was one that a file listed after its last entry has made again. */
  lemma BackIff(env: Env, fs0: Fs, snapshotDir: string, sources: seq<string>, now: int, fs1: Fs, t: Path, p: Path)
    requires Taken(env, fs0, snapshotDir, sources, now, fs1, t) && p in PathsOf(sources)
    requires Restore(env, fs1, Create(env, fs0, snapshotDir, sources, now).1.value, t).1
    ensures var fs2 := Restore(env, fs1, Create(env, fs0, snapshotDir, sources, now).1.value, t).0;
      AsItWas(fs0, fs2, p) <==> !IsDir(fs0, p) || Rebuilt(fs0, PathsOf(sources), p)
  {
    RestoreSettles(env, fs0, snapshotDir, sources, now, fs1, t);
    var fs2 := Restore(env, fs1, Create(env, fs0, snapshotDir, sources, now).1.value, t).0;
    assert Left(fs0, fs1, fs2, PathsOf(sources), p);
  }

  /** A directory listed after a file below it makes every restore of the backup fail: when its
      entry comes the file is back and the directory is not empty. */
  lemma DirectoryAfterFileFails(env: Env, fs0: Fs, snapshotDir: string, sources: seq<string>, now: int, fs1: Fs,
                                t: Path, i: nat, j: nat)
    requires Taken(env, fs0, snapshotDir, sources, now, fs1, t) && i < j < |PathsOf(sources)|
    requires var ps := PathsOf(sources); IsFile(fs0, ps[i]) && IsDir(fs0, ps[j]) && Above(ps[j], ps[i])
    ensures !Restore(env, fs1, Create(env, fs0, snapshotDir, sources, now).1.value, t).1
  {
    var ps := PathsOf(sources);
    RestoreIff(env, fs0, snapshotDir, sources, now, fs1, t);
    assert ps[..j][i] == ps[i];
    assert !Goes(env, fs0, fs1, t, ps[..j], ps[j], HasFile(fs0, ps));
  }

  // ---------------------------------------------------------------- files and absent paths

  /** A path that was a file or absent at fs0 and at whose place there now is a file or nothing. */
  predicate Restorable(env: Env, fs0: Fs, fs1: Fs, p: Path) {
    UnderHome(env, Render(p)) && !IsDir(fs0, p) && !IsDir(fs1, p) && !Blocked(fs1, p)
  }

  /** No listed file has grown past what the atomic writer compares with. */
  ghost predicate NoneGrown(fs0: Fs, fs1: Fs, ps: seq<Path>) {
    forall p :: p in ps && IsFile(fs0, p) && IsFile(fs1, p) ==> |fs1[p].data| <= MAX_COMPARE
  }

  /** No file that is listed twice is too large for the comparison its second write makes. */
  ghost predicate RepeatsAreSmall(fs0: Fs, ps: seq<Path>) {
    forall i, j :: 0 <= i < j < |ps| && ps[i] == ps[j] && IsFile(fs0, ps[i]) ==> |fs0[ps[i]].data| <= MAX_COMPARE
  }

  /** For such a path only the size of what is there can be in the way. */
  lemma RestorableGoes(env: Env, fs0: Fs, fs1: Fs, t: Path, done: seq<Path>, p: Path, compressed: bool)
    requires WellFormed(fs0) && WellFormed(fs1) && FreshTemp(fs1, t) && Restorable(env, fs0, fs1, p) && !Within(t, p)
    ensures Goes(env, fs0, fs1, t, done, p, compressed) <==> (IsFile(fs0, p) ==> !TooLarge(fs0, fs1, done, p))
  {
    NotAboveTemp(fs1, t, p);
    if !IsFile(fs0, p) {
      NoChild(fs0, p);
      NoChild(fs1, p);
    }
  }

  lemma NotAboveTemp(fs1: Fs, t: Path, p: Path)
    requires WellFormed(fs1) && FreshTemp(fs1, t) && !IsDir(fs1, p)
    ensures !Above(p, t)
  {
    if Above(p, t) {
      assert p == Parent(t)[..|p|];
      if |p| < |Parent(t)| { AncestorIsDir(fs1, Parent(t), |p|); }
    }
  }

  /** No entry finds anything too large: nothing has grown, and no repeated file is large. */
  lemma SmallIff(fs0: Fs, fs1: Fs, ps: seq<Path>)
    ensures (forall i :: 0 <= i < |ps| && IsFile(fs0, ps[i]) ==> !TooLarge(fs0, fs1, ps[..i], ps[i]))
            <==> NoneGrown(fs0, fs1, ps) && RepeatsAreSmall(fs0, ps)
  {
    if forall i :: 0 <= i < |ps| && IsFile(fs0, ps[i]) ==> !TooLarge(fs0, fs1, ps[..i], ps[i]) {
      forall p | p in ps && IsFile(fs0, p) && IsFile(fs1, p)
        ensures |fs1[p].data| <= MAX_COMPARE
      {
        var i := FirstPlace(ps, p);
        assert !TooLarge(fs0, fs1, ps[..i], ps[i]);
      }
      forall i, j | 0 <= i < j < |ps| && ps[i] == ps[j] && IsFile(fs0, ps[i])
        ensures |fs0[ps[i]].data| <= MAX_COMPARE
      {
        assert ps[..j][i] == ps[j] && !TooLarge(fs0, fs1, ps[..j], ps[j]);
      }
    }
    if NoneGrown(fs0, fs1, ps) && RepeatsAreSmall(fs0, ps) {
      forall j | 0 <= j < |ps| && IsFile(fs0, ps[j])
        ensures !TooLarge(fs0, fs1, ps[..j], ps[j])
      {
        assert ps[j] in ps;
        if i :| 0 <= i < j && ps[..j][i] == ps[j] { assert ps[i] == ps[j]; }
      }
    }
  }

  lemma {:induction false} FirstPlace(ps: seq<Path>, p: Path) returns (i: nat)
    requires p in ps
    ensures i < |ps| && ps[i] == p && p !in ps[..i]
  {
    if ps[0] == p {
      i := 0;
    } else {
      var k := FirstPlace(ps[1..], p);
      i := k + 1;
      assert ps[..i] == [ps[0]] + ps[1..][..k];
    }
  }

  /** What a restore does to files and absent paths: each is back, and nothing else has changed but
      new directories above restored files. */
  ghost predicate Undone(fs0: Fs, fs1: Fs, fs2: Fs, ps: seq<Path>) {
    && (forall p :: p in ps ==> Returned(fs0, fs1, fs2, p))
    && (forall q :: q !in ps ==> LeftAlone(fs0, fs1, fs2, ps, q))
  }

  /** A backup of files and absent paths, whatever happened since to files, modes, parents and
      everything else, restores exactly when no listed file has grown too large to be compared with
      and no large file is listed twice. Then each listed file has its content again, each path that
      was absent is absent again, and nothing else changes but missing parent directories. */
  lemma RestoreUndoes(env: Env, fs0: Fs, snapshotDir: string, sources: seq<string>, now: int, fs1: Fs, t: Path)
    requires Taken(env, fs0, snapshotDir, sources, now, fs1, t)
    requires forall p :: p in PathsOf(sources) ==> Restorable(env, fs0, fs1, p)
    ensures var (fs2, ok) := Restore(env, fs1, Create(env, fs0, snapshotDir, sources, now).1.value, t);
      var ps := PathsOf(sources);
      (ok <==> NoneGrown(fs0, fs1, ps) && RepeatsAreSmall(fs0, ps)) && (ok ==> Undone(fs0, fs1, fs2, ps))
  {
    var ps := PathsOf(sources);
    RestoreIff(env, fs0, snapshotDir, sources, now, fs1, t);
    AllRestorable(env, fs0, fs1, t, ps, HasFile(fs0, ps));
    SmallIff(fs0, fs1, ps);
    var (fs2, ok) := Restore(env, fs1, Create(env, fs0, snapshotDir, sources, now).1.value, t);
    if ok {
      RestoreSettles(env, fs0, snapshotDir, sources, now, fs1, t);
      SettledUndone(fs0, fs1, fs2, ps);
    }
  }

  lemma AllRestorable(env: Env, fs0: Fs, fs1: Fs, t: Path, ps: seq<Path>, compressed: bool)
    requires WellFormed(fs0) && WellFormed(fs1) && FreshTemp(fs1, t)
    requires forall p :: p in ps ==> Restorable(env, fs0, fs1, p) && !Within(t, p)
    ensures (forall i :: 0 <= i < |ps| ==> Goes(env, fs0, fs1, t, ps[..i], ps[i], compressed))
            <==> forall i :: 0 <= i < |ps| && IsFile(fs0, ps[i]) ==> !TooLarge(fs0, fs1, ps[..i], ps[i])
  {
    forall i | 0 <= i < |ps|
      ensures Goes(env, fs0, fs1, t, ps[..i], ps[i], compressed)
              <==> (IsFile(fs0, ps[i]) ==> !TooLarge(fs0, fs1, ps[..i], ps[i]))
    {
      assert ps[i] in ps;
      RestorableGoes(env, fs0, fs1, t, ps[..i], ps[i], compressed);
    }
  }

  lemma SettledUndone(fs0: Fs, fs1: Fs, fs2: Fs, ps: seq<Path>)
    requires Settled(fs0, fs1, fs2, ps) && forall p :: p in ps ==> !IsDir(fs0, p)
    ensures Undone(fs0, fs1, fs2, ps)
  {
    forall p | p in ps
      ensures Returned(fs0, fs1, fs2, p)
    {
      assert Left(fs0, fs1, fs2, ps, p);
    }
  }

  /** The first listed file that has grown past 16 MiB stops the restore: what is listed before it is
      restored, and nothing else has changed but new directories above that. */
  lemma GrownFileStops(env: Env, fs0: Fs, snapshotDir: string, sources: seq<string>, now: int, fs1: Fs, t: Path, n: nat)
    requires Taken(env, fs0, snapshotDir, sources, now, fs1, t) && n < |PathsOf(sources)|
    requires forall p :: p in PathsOf(sources) ==> Restorable(env, fs0, fs1, p)
    requires var p := PathsOf(sources)[n]; IsFile(fs0, p) && IsFile(fs1, p) && |fs1[p].data| > MAX_COMPARE
    requires NoneGrown(fs0, fs1, PathsOf(sources)[..n]) && RepeatsAreSmall(fs0, PathsOf(sources)[..n])
    ensures var (fs2, ok) := Restore(env, fs1, Create(env, fs0, snapshotDir, sources, now).1.value, t);
      !ok && Undone(fs0, fs1, fs2, PathsOf(sources)[..n])
  {
    var ps := PathsOf(sources);
    var compressed := HasFile(fs0, ps);
    RestoreStops(env, fs0, snapshotDir, sources, now, fs1, t);
    assert ps[n] !in ps[..n] && forall p :: p in ps[..n] ==> p in ps;
    AllRestorable(env, fs0, fs1, t, ps[..n], compressed);
    SmallIff(fs0, fs1, ps[..n]);
    RestorableGoes(env, fs0, fs1, t, ps[..n], ps[n], compressed);
    GoesBefore(env, fs0, fs1, t, ps, n, compressed);
    StopIs(env, fs0, fs1, t, ps, compressed, n);
    SettledUndone(fs0, fs1, Restore(env, fs1, Create(env, fs0, snapshotDir, sources, now).1.value, t).0, ps[..n]);
  }

  lemma GoesBefore(env: Env, fs0: Fs, fs1: Fs, t: Path, ps: seq<Path>, n: nat, compressed: bool)
    requires n <= |ps| && forall i :: 0 <= i < n ==> Goes(env, fs0, fs1, t, ps[..n][..i], ps[..n][i], compressed)
    ensures forall i :: 0 <= i < n ==> Goes(env, fs0, fs1, t, ps[..i], ps[i], compressed)
  {
    forall i | 0 <= i < n
      ensures Goes(env, fs0, fs1, t, ps[..i], ps[i], compressed)
    {
      assert ps[..n][..i] == ps[..i] && ps[..n][i] == ps[i];
    }
  }

  lemma StopIs(env: Env, fs0: Fs, fs1: Fs, t: Path, ps: seq<Path>, compressed: bool, n: nat)
    requires n < |ps| && !Goes(env, fs0, fs1, t, ps[..n], ps[n], compressed)
    requires forall i :: 0 <= i < n ==> Goes(env, fs0, fs1, t, ps[..i], ps[i], compressed)
    ensures Stop(env, fs0, fs1, t, ps, compressed, 0) == n
  {
  }

  // ---------------------------------------------------------------- the mode

  /** When a restored file has its recorded mode: if its content was still there, exactly when its
      mode was too, and otherwise, since it had to be written, exactly when that mode is not 0. */
  predicate ModeReturns(fs0: Fs, fs1: Fs, p: Path)
    requires IsFile(fs0, p)
  {
    if IsFile(fs1, p) && fs1[p].data == fs0[p].data then fs1[p].mode == fs0[p].mode else fs0[p].mode != 0
  }

  /** A listed path that was a file or absent is exactly what it was at snapshot time if and only if
      it was absent or its mode returns; nothing but the mode can differ. */
  lemma ReturnedExactly(fs0: Fs, fs1: Fs, fs2: Fs, ps: seq<Path>, p: Path)
    requires Settled(fs0, fs1, fs2, ps) && p in ps && !IsDir(fs0, p)
    ensures p in fs2 <==> p in fs0
    ensures p in fs0 ==> fs2[p].File? && fs2[p].data == fs0[p].data
    ensures p in fs0 ==> (fs2[p] == fs0[p] <==> ModeReturns(fs0, fs1, p))
  {
    assert Left(fs0, fs1, fs2, ps, p);
  }

  /** A file whose mode was changed and whose content was not keeps the changed mode through a
      successful restore. */
  lemma ChangedModeStays(env: Env, fs0: Fs, snapshotDir: string, sources: seq<string>, now: int, fs1: Fs, t: Path,
                         p: Path)
    requires Taken(env, fs0, snapshotDir, sources, now, fs1, t)
    requires Restore(env, fs1, Create(env, fs0, snapshotDir, sources, now).1.value, t).1
    requires p in PathsOf(sources) && IsFile(fs0, p) && IsFile(fs1, p)
    requires fs1[p].data == fs0[p].data && fs1[p].mode != fs0[p].mode
    ensures var fs2 := Restore(env, fs1, Create(env, fs0, snapshotDir, sources, now).1.value, t).0;
      p in fs2 && fs2[p] == fs1[p] && fs2[p] != fs0[p]
  {
    RestoreSettles(env, fs0, snapshotDir, sources, now, fs1, t);
    ReturnedExactly(fs0, fs1, Restore(env, fs1, Create(env, fs0, snapshotDir, sources, now).1.value, t).0,
                    PathsOf(sources), p);
  }
}
