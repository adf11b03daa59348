/** The file system as a map from component lists to nodes, with the calls the backup code
    makes. Each call either returns the new map or fails and leaves the old one. */
module FileSystem {
  import opened Text
  import opened Paths

  datatype Node = File(data: string, mode: nat) | Dir
  type Fs = map<Path, Node>

  /** The root is a directory and everything else sits in a directory. */
  ghost predicate WellFormed(fs: Fs) {
    && [] in fs && fs[[]].Dir?
    && forall p :: p in fs && p != [] ==> Parent(p) in fs && fs[Parent(p)].Dir?
  }

  predicate IsDir(fs: Fs, p: Path) { p in fs && fs[p].Dir? }

  predicate IsFile(fs: Fs, p: Path) { p in fs && fs[p].File? }

  /** Some proper ancestor is a file: the kernel answers "not a directory". */
  predicate Blocked(fs: Fs, p: Path) {
    exists k: nat :: k < |p| && IsFile(fs, p[..k])
  }

  /** What lies at or below p. */
  predicate Within(p: Path, q: Path) {
    |p| <= |q| && q[..|p|] == p
  }

  predicate HasChild(fs: Fs, p: Path) {
    exists q :: q in fs && Above(p, q)
  }

  lemma {:induction false} AncestorIsDir(fs: Fs, p: Path, k: nat)
    requires WellFormed(fs) && p in fs && k < |p|
    ensures IsDir(fs, p[..k])
    decreases |p|
  {
    if k < |p| - 1 {
      AncestorIsDir(fs, Parent(p), k);
      assert Parent(p)[..k] == p[..k];
    }
  }

  lemma NoChild(fs: Fs, p: Path)
    requires WellFormed(fs) && !IsDir(fs, p)
    ensures !HasChild(fs, p)
  {
    forall q | q in fs && Above(p, q)
      ensures false
    {
      AncestorIsDir(fs, q, |p|);
    }
  }

  /** os.MkdirAll: fails when the path or an ancestor is a file. */
  function MkdirAll(fs: Fs, p: Path): Option<Fs> {
    if Blocked(fs, p) || IsFile(fs, p) then None
    else Some(map q | q in fs.Keys + Prefixes(p) :: if q in fs then fs[q] else Dir)
  }

  function Prefixes(p: Path): (s: set<Path>)
    ensures forall q :: q in s <==> Within(q, p)
  {
    var s := set k: nat | k <= |p| :: p[..k];
    assert forall q :: Within(q, p) ==> q == p[..|q|];
    s
  }

  /** The largest file WriteFileAtomic will compare with. */
  const MAX_COMPARE: nat := 16 * 1024 * 1024

  const DEFAULT_MODE: nat := 420 // 0644

  /** WriteFileAtomic: equal content is left alone, mode included; a mode of 0 becomes 0644. */
  function WriteFileAtomic(fs: Fs, p: Path, data: string, perm: nat): Option<Fs>
    requires p != []
  {
    if IsDir(fs, p) || Blocked(fs, p) then None
    else if IsFile(fs, p) && |fs[p].data| > MAX_COMPARE then None
    else if IsFile(fs, p) && fs[p].data == data then Some(fs)
    else
      match MkdirAll(fs, Parent(p))
      case None => None
      case Some(fs') => Some(fs'[p := File(data, if perm == 0 then DEFAULT_MODE else perm)])
  }

  /** os.Remove with a missing path tolerated: a directory goes only when it is empty. */
  function Remove(fs: Fs, p: Path): Option<Fs> {
    if p == [] || Blocked(fs, p) then None
    else if p !in fs then Some(fs)
    else if fs[p].Dir? && HasChild(fs, p) then None
    else Some(fs - {p})
  }

  /** os.OpenFile with create and truncate, then a full write: an existing file keeps its mode. */
  function Overwrite(fs: Fs, p: Path, data: string, perm: nat): Option<Fs>
    requires p != []
  {
    if IsDir(fs, p) || Blocked(fs, p) || !IsDir(fs, Parent(p)) then None
    else Some(fs[p := File(data, if IsFile(fs, p) then fs[p].mode else perm)])
  }

  /** os.RemoveAll. */
  function RemoveAll(fs: Fs, p: Path): Fs {
    map q | q in fs && !Within(p, q) :: fs[q]
  }

  // ---------------------------------------------------------------- what the calls keep

  lemma MkdirAllMakes(fs: Fs, p: Path)
    requires WellFormed(fs) && MkdirAll(fs, p).Some?
    ensures var fs' := MkdirAll(fs, p).value;
      && WellFormed(fs')
      && (forall q :: Within(q, p) ==> IsDir(fs', q))
      && (forall q :: q in fs ==> q in fs' && fs'[q] == fs[q])
      && (forall q :: q in fs' && q !in fs ==> Within(q, p))
  {
    var fs' := MkdirAll(fs, p).value;
    forall q | Within(q, p)
      ensures IsDir(fs', q)
    {
      assert q == p[..|q|] && q in Prefixes(p);
      assert p[..|p|] == p;
      assert !IsFile(fs, p[..|q|]);
    }
    forall q | q in fs' && q != []
      ensures Parent(q) in fs' && fs'[Parent(q)].Dir?
    {
      if q !in fs {
        assert q in Prefixes(p);
        assert Parent(q) == p[..|q| - 1];
        assert Within(Parent(q), p);
      }
    }
  }

  lemma BlockedBelow(fs: Fs, p: Path, q: Path)
    requires Within(p, q) && (Blocked(fs, p) || (IsFile(fs, p) && p != q))
    ensures Blocked(fs, q)
  {
    if Blocked(fs, p) {
      var k: nat :| k < |p| && IsFile(fs, p[..k]);
      assert q[..k] == p[..k];
    } else {
      assert q[..|p|] == p;
    }
  }

  /** A successful write: the file holds the data, and nothing else changes but new parent
      directories. The mode is the requested one only when the content had to be written. */
  lemma WriteMakes(fs: Fs, p: Path, data: string, perm: nat)
    requires WellFormed(fs) && p != []
    ensures WriteFileAtomic(fs, p, data, perm).Some?
            <==> !IsDir(fs, p) && !Blocked(fs, p) && (IsFile(fs, p) ==> |fs[p].data| <= MAX_COMPARE)
    ensures WriteFileAtomic(fs, p, data, perm).Some? ==>
      var fs' := WriteFileAtomic(fs, p, data, perm).value;
      && WellFormed(fs')
      && p in fs' && fs'[p] == File(data, WrittenMode(fs, p, data, perm))
      && (forall q :: q in fs && q != p ==> q in fs' && fs'[q] == fs[q])
      && (forall q :: q in fs' && q !in fs && q != p ==> Above(q, p) && fs'[q] == Dir)
  {
    if !IsDir(fs, p) && !Blocked(fs, p) {
      if Blocked(fs, Parent(p)) || IsFile(fs, Parent(p)) {
        BlockedBelow(fs, Parent(p), p);
        assert false;
      }
      MkdirAllMakes(fs, Parent(p));
      var fs1 := MkdirAll(fs, Parent(p)).value;
      var fs' := fs1[p := File(data, if perm == 0 then DEFAULT_MODE else perm)];
      NoChild(fs1, p);
      forall q | q in fs' && q != []
        ensures Parent(q) in fs' && fs'[Parent(q)].Dir?
      {
        assert q in fs1 && Parent(q) == p ==> Above(p, q);
      }
    }
  }

  function WrittenMode(fs: Fs, p: Path, data: string, perm: nat): nat {
    if IsFile(fs, p) && fs[p].data == data then fs[p].mode
    else if perm == 0 then DEFAULT_MODE else perm
  }

  lemma RemoveMakes(fs: Fs, p: Path)
    requires WellFormed(fs) && Remove(fs, p).Some?
    ensures var fs' := Remove(fs, p).value;
      && WellFormed(fs') && p !in fs'
      && (forall q :: q in fs && q != p ==> q in fs' && fs'[q] == fs[q])
      && (forall q :: q in fs' ==> q in fs)
  {
    var fs' := Remove(fs, p).value;
    forall q | q in fs' && q != []
      ensures Parent(q) in fs' && fs'[Parent(q)].Dir?
    {
      assert Parent(q) == p ==> Above(p, q);
    }
  }
}
