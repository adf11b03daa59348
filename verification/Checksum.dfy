/** The text a backup's checksum hashes: what it determines, and that the order in which the
    files are listed does not matter. */
module Checksum {
  import opened Text
  import opened Paths
  import opened FileSystem

  /** One backed-up file: its path and the hex digest of its content. */
  datatype Entry = Entry(path: string, hash: string)

  const DIGEST_LENGTH: nat := 64

  /** A hex digest, as %x prints 32 bytes. */
  predicate IsDigest(h: string) {
    |h| == DIGEST_LENGTH && forall i :: 0 <= i < |h| ==> '0' <= h[i] <= '9' || 'a' <= h[i] <= 'f'
  }

  // ---------------------------------------------------------------- the order of paths

  /** Go's string order. */
  predicate Less(a: string, b: string) {
    if b == "" then false
    else if a == "" then true
    else if a[0] != b[0] then a[0] < b[0]
    else Less(a[1..], b[1..])
  }

  lemma {:induction false} LessTotal(a: string, b: string)
    ensures a == b || Less(a, b) || Less(b, a)
    ensures !(Less(a, b) && Less(b, a)) && !Less(a, a)
  {
    if a != "" && b != "" && a[0] == b[0] {
      LessTotal(a[1..], b[1..]);
      assert a == [a[0]] + a[1..] && b == [b[0]] + b[1..];
    }
    if a != "" {
      LessIrreflexive(a);
    }
  }

  lemma {:induction false} LessIrreflexive(a: string)
    ensures !Less(a, a)
  {
    if a != "" { LessIrreflexive(a[1..]); }
  }

  lemma {:induction false} LessTransitive(a: string, b: string, c: string)
    requires Less(a, b) && Less(b, c)
    ensures Less(a, c)
  {
    if a != "" && a[0] == b[0] && b[0] == c[0] {
      LessTransitive(a[1..], b[1..], c[1..]);
    }
  }

  predicate Sorted(es: seq<Entry>) {
    forall i, j :: 0 <= i < j < |es| ==> !Less(es[j].path, es[i].path)
  }

  /** One content, one digest: the same path never carries two hashes. */
  ghost predicate Consistent(es: seq<Entry>) {
    forall i, j :: 0 <= i < |es| && 0 <= j < |es| && es[i].path == es[j].path ==> es[i] == es[j]
  }

  lemma HeadsEqual(a: seq<Entry>, b: seq<Entry>)
    requires multiset(a) == multiset(b) && Sorted(a) && Sorted(b) && Consistent(a) && a != [] && b != []
    ensures a[0] == b[0]
  {
    assert a[0] in multiset(b) && b[0] in multiset(a);
    var i :| 0 <= i < |b| && b[i] == a[0];
    var j :| 0 <= j < |a| && a[j] == b[0];
    LessTotal(a[0].path, b[0].path);
    assert !Less(a[0].path, b[0].path) && !Less(b[0].path, a[0].path);
  }

  /** However ties fall, a consistent list has only one sorted order. */
  lemma {:induction false} SortedUnique(a: seq<Entry>, b: seq<Entry>)
    requires multiset(a) == multiset(b) && Sorted(a) && Sorted(b) && Consistent(a)
    ensures a == b
    decreases |a|
  {
    assert |a| == |multiset(a)| == |multiset(b)| == |b|;
    if a != [] {
      HeadsEqual(a, b);
      assert a == [a[0]] + a[1..] && b == [b[0]] + b[1..];
      assert multiset(a[1..]) == multiset(a) - multiset{a[0]};
      assert multiset(b[1..]) == multiset(b) - multiset{b[0]};
      SortedUnique(a[1..], b[1..]);
    }
  }

  // ---------------------------------------------------------------- the hashed text

  /** The line of one file. */
  function Line(e: Entry): string {
    e.path + ":" + e.hash + "\n"
  }

  /** The lines "path:hash" that ComputeChecksum concatenates. */
  function Preimage(es: seq<Entry>): string {
    if es == [] then "" else Line(es[0]) + Preimage(es[1..])
  }

  /** A colon, a digest and a line break, as one line of the text ends. */
  predicate LineEndsAt(p: string, i: nat) {
    i + DIGEST_LENGTH + 2 <= |p| && p[i] == ':' && IsDigest(p[i + 1..i + 1 + DIGEST_LENGTH])
      && p[i + 1 + DIGEST_LENGTH] == '\n'
  }

  /** The path could be read as the end of one line and the start of another, in the order in which
      the program sorts the two paths. */
  predicate Splits(p: string) {
    exists i :: 0 <= i < |p| && LineEndsAt(p, i) && !Less(p[i + DIGEST_LENGTH + 2..], p[..i])
  }

  ghost predicate Valid(es: seq<Entry>) {
    forall i :: 0 <= i < |es| ==> IsDigest(es[i].hash)
  }

  ghost predicate Plain(es: seq<Entry>) {
    forall i :: 0 <= i < |es| ==> !Splits(es[i].path) && IsDigest(es[i].hash)
  }

  /** A text that begins with two lines has the longer path hold the end of the shorter line, and
      then go on as a line does. */
  lemma LongerHoldsLine(e: Entry, r: string, f: Entry, t: string) returns (rest: string)
    requires IsDigest(e.hash) && IsDigest(f.hash) && Line(e) + r == Line(f) + t && |e.path| < |f.path|
    ensures LineEndsAt(f.path, |e.path|) && f.path[..|e.path|] == e.path
            && rest == f.path[|e.path| + DIGEST_LENGTH + 2..]
    ensures f.path[|e.path| + 1..|e.path| + 1 + DIGEST_LENGTH] == e.hash
    ensures r == Line(Entry(rest, f.hash)) + t
  {
    var s, n, m := Line(e) + r, |e.path|, |f.path|;
    assert forall k :: n < k <= n + DIGEST_LENGTH ==> s[k] == e.hash[k - n - 1];
    assert s[n] == ':' && s[n + 1 + DIGEST_LENGTH] == '\n';
    assert (Line(f) + t)[m] == ':' && forall k :: 0 <= k < m ==> (Line(f) + t)[k] == f.path[k];
    assert n + DIGEST_LENGTH + 2 <= m;
    assert f.path[n + 1..n + 1 + DIGEST_LENGTH] == e.hash;
    rest := f.path[n + DIGEST_LENGTH + 2..];
    LineParts(e, r);
    assert (Line(f) + t)[n + DIGEST_LENGTH + 2..] == Line(Entry(rest, f.hash)) + t;
  }

  lemma LineParts(e: Entry, r: string)
    requires IsDigest(e.hash)
    ensures var s, n := Line(e) + r, |e.path|;
      && |s| == n + DIGEST_LENGTH + 2 + |r| && s[..n] == e.path
      && s[n + 1..n + 1 + DIGEST_LENGTH] == e.hash && s[n + DIGEST_LENGTH + 2..] == r
  {
  }

  lemma SameLine(e: Entry, r: string, f: Entry, t: string)
    requires IsDigest(e.hash) && IsDigest(f.hash) && |e.path| == |f.path| && Line(e) + r == Line(f) + t
    ensures e == f && r == t
  {
    LineParts(e, r);
    LineParts(f, t);
  }

  lemma {:induction false} PrefixLess(q: string, r: string, low: string)
    requires |q| <= |r| && r[..|q|] == q && Less(r, low)
    ensures Less(q, low)
  {
    if q != "" && q[0] == low[0] {
      assert r[1..][..|q| - 1] == q[1..];
      PrefixLess(q[1..], r[1..], low[1..]);
    }
  }

  /** One list starts where a path of the other goes on with something less than both: neither can
      ever catch up. The lists take turns in being behind. */
  lemma {:induction false} NeverMeet(a: seq<Entry>, late: Entry, b: seq<Entry>, low: string)
    requires Plain(a) && Plain(b) && Sorted(a) && Sorted(b) && IsDigest(late.hash) && Less(late.path, low)
    requires a != [] ==> !Less(a[0].path, low)
    requires b != [] ==> !Less(b[0].path, low)
    requires Preimage(a) == Line(late) + Preimage(b)
    ensures false
    decreases |a| + |b|
  {
    var q := a[0];
    if |q.path| <= |late.path| {
      assert (Line(q) + Preimage(a[1..]))[..|q.path|] == q.path
             && (Line(late) + Preimage(b))[..|q.path|] == late.path[..|q.path|];
      PrefixLess(q.path, late.path, low);
    } else {
      var rest := LongerHoldsLine(late, Preimage(b), q, Preimage(a[1..]));
      assert !Splits(q.path) && q.path[..|late.path|] == late.path;
      LessTransitive(rest, late.path, low);
      assert a[1..] != [] ==> !Less(a[1].path, q.path);
      if a[1..] != [] { NotBelow(a[1].path, q.path, low); }
      NeverMeet(b, Entry(rest, q.hash), a[1..], low);
    }
  }

  lemma NotBelow(a: string, b: string, c: string)
    requires !Less(a, b) && !Less(b, c)
    ensures !Less(a, c)
  {
    if Less(a, c) {
      LessTotal(a, b);
      if a != b { LessTransitive(b, a, c); }
    }
  }

  /** Two sorted lists with the same text do not begin with paths of different lengths. */
  lemma SameLengths(a: seq<Entry>, b: seq<Entry>)
    requires a != [] && b != [] && Plain(a) && Plain(b) && Sorted(a) && Sorted(b) && Preimage(a) == Preimage(b)
    ensures |a[0].path| >= |b[0].path|
  {
    var e, f := a[0], b[0];
    if |e.path| < |f.path| {
      var rest := LongerHoldsLine(e, Preimage(a[1..]), f, Preimage(b[1..]));
      assert !Splits(f.path) && Less(rest, e.path);
      LessIrreflexive(e.path);
      if Less(f.path, e.path) { PrefixLess(e.path, f.path, e.path); }
      if b[1..] != [] { NotBelow(b[1].path, f.path, e.path); }
      NeverMeet(a[1..], Entry(rest, f.hash), b[1..], e.path);
    }
  }

  /** Where no path splits, the hashed text determines the sorted list it was made from. */
  lemma {:induction false} PreimageInjective(a: seq<Entry>, b: seq<Entry>)
    requires Plain(a) && Plain(b) && Sorted(a) && Sorted(b) && Preimage(a) == Preimage(b)
    ensures a == b
    decreases |a|
  {
    if a != [] && b != [] {
      SameLengths(a, b);
      SameLengths(b, a);
      SameLine(a[0], Preimage(a[1..]), b[0], Preimage(b[1..]));
      PreimageInjective(a[1..], b[1..]);
      assert a == [a[0]] + a[1..] && b == [b[0]] + b[1..];
    }
  }

  /** The two lists a path that splits confuses: the file itself, and the two files it can be read
      as. */
  function Pieces(p: string, i: nat, h: string): seq<Entry>
    requires LineEndsAt(p, i)
  {
    [Entry(p[..i], p[i + 1..i + 1 + DIGEST_LENGTH]), Entry(p[i + DIGEST_LENGTH + 2..], h)]
  }

  lemma PiecesCollide(p: string, i: nat, h: string)
    requires LineEndsAt(p, i) && IsDigest(h)
    ensures Valid(Pieces(p, i, h)) && Preimage(Pieces(p, i, h)) == Preimage([Entry(p, h)])
    ensures multiset(Pieces(p, i, h)) != multiset([Entry(p, h)])
  {
    var two := Pieces(p, i, h);
    Rejoined(p, i);
    LinesJoin(two[0], two[1], p);
    TwoLines(two[0], two[1]);
    OneLine(Entry(p, h));
    assert |multiset(two)| == 2 && |multiset([Entry(p, h)])| == 1;
  }

  lemma OneLine(e: Entry)
    ensures Preimage([e]) == Line(e)
  {
    assert [e][1..] == [] && Line(e) + "" == Line(e);
  }

  lemma TwoLines(e: Entry, f: Entry)
    ensures Preimage([e, f]) == Line(e) + Line(f)
  {
    assert [e, f][1..] == [f];
    OneLine(f);
  }

  lemma LinesJoin(e: Entry, f: Entry, p: string)
    requires p == e.path + ":" + e.hash + "\n" + f.path
    ensures Line(e) + Line(f) == Line(Entry(p, f.hash))
  {
  }

  lemma Rejoined(p: string, i: nat)
    requires LineEndsAt(p, i)
    ensures p == p[..i] + ":" + p[i + 1..i + 1 + DIGEST_LENGTH] + "\n" + p[i + DIGEST_LENGTH + 2..]
  {
  }

  /** Another sorted list with the text of a single file makes its path split. */
  lemma OtherSplits(e: Entry, es: seq<Entry>)
    requires IsDigest(e.hash) && Valid(es) && Sorted(es) && Preimage(es) == Line(e) + "" && es != [e]
    ensures Splits(e.path)
  {
    var f, more := es[0], Preimage(es[1..]);
    assert |Line(f)| <= |Line(e)| && es == [f] + es[1..] && (es[1..] != [] ==> more != "");
    if |f.path| == |e.path| {
      SameLine(f, more, e, "");
      assert false;
    }
    var rest := LongerHoldsLine(f, more, e, "");
    var q := es[1];
    var s := Line(q) + Preimage(es[1..][1..]);
    assert s == Line(Entry(rest, e.hash)) + "" && |q.path| <= |rest|;
    assert s[..|q.path|] == q.path && s[..|q.path|] == rest[..|q.path|];
    if Less(rest, f.path) { PrefixLess(q.path, rest, f.path); }
  }

  /** The text of a single file determines the sorted list, for every digest, exactly when its path
      does not split. */
  lemma DeterminedIff(p: string, h: string)
    requires IsDigest(h)
    ensures !Splits(p)
            <==> forall es :: Valid(es) && Sorted(es) && Preimage(es) == Preimage([Entry(p, h)]) ==> es == [Entry(p, h)]
  {
    assert Preimage([Entry(p, h)]) == Line(Entry(p, h)) + "";
    if i :| 0 <= i < |p| && LineEndsAt(p, i) && !Less(p[i + DIGEST_LENGTH + 2..], p[..i]) {
      PiecesCollide(p, i, h);
      assert Sorted(Pieces(p, i, h));
    } else {
      forall es | Valid(es) && Sorted(es) && Preimage(es) == Preimage([Entry(p, h)])
        ensures es == [Entry(p, h)]
      {
        if es != [Entry(p, h)] { OtherSplits(Entry(p, h), es); }
      }
    }
  }

  // ---------------------------------------------------------------- sorting and hashing

  function Insert(e: Entry, es: seq<Entry>): (r: seq<Entry>)
    ensures multiset(r) == multiset(es) + multiset{e}
  {
    if es == [] || !Less(es[0].path, e.path) then [e] + es
    else
      assert es == [es[0]] + es[1..];
      [es[0]] + Insert(e, es[1..])
  }

  function Sort(es: seq<Entry>): (r: seq<Entry>)
    ensures multiset(r) == multiset(es)
  {
    if es == [] then []
    else
      assert es == [es[0]] + es[1..];
      Insert(es[0], Sort(es[1..]))
  }

  lemma {:induction false} InsertSorted(e: Entry, es: seq<Entry>)
    requires Sorted(es)
    ensures Sorted(Insert(e, es))
    decreases |es|
  {
    var r := Insert(e, es);
    if es == [] {
    } else if !Less(es[0].path, e.path) {
      forall j | 0 <= j < |es|
        ensures !Less(es[j].path, e.path)
      {
        if Less(es[j].path, e.path) {
          LessTotal(es[j].path, es[0].path);
          if j > 0 && es[j].path != es[0].path { LessTransitive(es[0].path, es[j].path, e.path); }
        }
      }
    } else {
      InsertSorted(e, es[1..]);
      forall j | 0 < j < |r|
        ensures !Less(r[j].path, es[0].path)
      {
        assert r[j] in multiset(Insert(e, es[1..]));
        assert r[j] == e || r[j] in es[1..];
        LessTotal(es[0].path, e.path);
      }
    }
  }

  lemma {:induction false} SortSorted(es: seq<Entry>)
    ensures Sorted(Sort(es))
  {
    if es != [] {
      SortSorted(es[1..]);
      InsertSorted(es[0], Sort(es[1..]));
    }
  }

  /** Two lists hash the same text exactly when they hold the same entries, in whatever order. */
  lemma PreimageIsMultiset(a: seq<Entry>, b: seq<Entry>)
    requires Plain(a) && Plain(b) && Consistent(a)
    ensures Preimage(Sort(a)) == Preimage(Sort(b)) <==> multiset(a) == multiset(b)
  {
    SortSorted(a);
    SortSorted(b);
    SortedPlain(a);
    SortedPlain(b);
    if multiset(a) == multiset(b) {
      SortedConsistent(a);
      SortedUnique(Sort(a), Sort(b));
    }
    if Preimage(Sort(a)) == Preimage(Sort(b)) {
      PreimageInjective(Sort(a), Sort(b));
    }
  }

  lemma SortedPlain(es: seq<Entry>)
    requires Plain(es)
    ensures Plain(Sort(es))
  {
    forall i | 0 <= i < |Sort(es)|
      ensures !Splits(Sort(es)[i].path) && IsDigest(Sort(es)[i].hash)
    {
      assert Sort(es)[i] in multiset(Sort(es));
      assert Sort(es)[i] in es;
    }
  }

  lemma SortedConsistent(es: seq<Entry>)
    requires Consistent(es)
    ensures Consistent(Sort(es))
  {
    var r := Sort(es);
    forall i, j | 0 <= i < |r| && 0 <= j < |r| && r[i].path == r[j].path
      ensures r[i] == r[j]
    {
      assert r[i] in multiset(r) && r[j] in multiset(r);
      assert r[i] in es && r[j] in es;
    }
  }

  /** Every path that splits, with any digest, has another set of files with the same computed text. */
  lemma SplitCollides(p: string, h: string) returns (two: seq<Entry>)
    requires Splits(p) && IsDigest(h)
    ensures Valid(two) && multiset(two) != multiset([Entry(p, h)])
            && Preimage(Sort(two)) == Preimage(Sort([Entry(p, h)]))
  {
    var i :| 0 <= i < |p| && LineEndsAt(p, i) && !Less(p[i + DIGEST_LENGTH + 2..], p[..i]);
    two := Pieces(p, i, h);
    PiecesCollide(p, i, h);
    SortOne(Entry(p, h));
    SortTwo(two[0], two[1]);
  }

  lemma SortOne(e: Entry)
    ensures Sort([e]) == [e]
  {
    assert [e][1..] == [];
  }

  lemma SortTwo(e: Entry, f: Entry)
    requires !Less(f.path, e.path)
    ensures Sort([e, f]) == [e, f]
  {
    SortOne(f);
    assert [e, f][1..] == [f];
  }

  // ---------------------------------------------------------------- the computation

  /** The files among the paths, with the digest of each. */
  function EntriesOf(sha: string -> string, fs: Fs, paths: seq<string>): seq<Entry> {
    if paths == [] then []
    else
      (if IsFile(fs, Components(paths[0])) then [Entry(paths[0], sha(fs[Components(paths[0])].data))] else [])
      + EntriesOf(sha, fs, paths[1..])
  }

  /** ComputeChecksum; a path below a file cannot be inspected and fails the whole computation. */
  function Compute(sha: string -> string, fs: Fs, paths: seq<string>): Option<string> {
    if exists i :: 0 <= i < |paths| && Components(paths[i]) !in fs && Blocked(fs, Components(paths[i])) then None
    else
      var es := EntriesOf(sha, fs, paths);
      Some(if es == [] then "" else sha(Preimage(Sort(es))))
  }

  /** One path, one digest: what is listed twice is listed alike. */
  lemma {:induction false} EntryOrigin(sha: string -> string, fs: Fs, paths: seq<string>, i: nat)
    requires i < |EntriesOf(sha, fs, paths)|
    ensures var e := EntriesOf(sha, fs, paths)[i];
      e.path in paths && IsFile(fs, Components(e.path)) && e.hash == sha(fs[Components(e.path)].data)
  {
    var head := if IsFile(fs, Components(paths[0])) then [Entry(paths[0], sha(fs[Components(paths[0])].data))] else [];
    if i >= |head| {
      EntryOrigin(sha, fs, paths[1..], i - |head|);
    }
  }

  lemma EntriesConsistent(sha: string -> string, fs: Fs, paths: seq<string>)
    ensures Consistent(EntriesOf(sha, fs, paths))
  {
    var es := EntriesOf(sha, fs, paths);
    forall i, j | 0 <= i < |es| && 0 <= j < |es| && es[i].path == es[j].path
      ensures es[i] == es[j]
    {
      EntryOrigin(sha, fs, paths, i);
      EntryOrigin(sha, fs, paths, j);
    }
  }

  lemma EntriesPlain(sha: string -> string, fs: Fs, paths: seq<string>)
    requires forall x :: IsDigest(sha(x))
    requires forall p :: p in paths ==> !Splits(p)
    ensures Plain(EntriesOf(sha, fs, paths))
  {
    var es := EntriesOf(sha, fs, paths);
    forall i | 0 <= i < |es|
      ensures !Splits(es[i].path) && IsDigest(es[i].hash)
    {
      EntryOrigin(sha, fs, paths, i);
    }
  }

  /** Two backups of at least one file each have equal checksums exactly when they list the same
      paths with the same content digests, provided sha separates the two hashed texts. */
  lemma ChecksumIsFileSet(sha: string -> string, fs: Fs, paths: seq<string>, fs': Fs, paths': seq<string>)
    requires Compute(sha, fs, paths).Some? && Compute(sha, fs', paths').Some?
    requires forall x :: IsDigest(sha(x))
    requires forall p :: p in paths || p in paths' ==> !Splits(p)
    requires EntriesOf(sha, fs, paths) != [] && EntriesOf(sha, fs', paths') != []
    requires var x, y := Preimage(Sort(EntriesOf(sha, fs, paths))), Preimage(Sort(EntriesOf(sha, fs', paths')));
      sha(x) == sha(y) ==> x == y
    ensures Compute(sha, fs, paths) == Compute(sha, fs', paths')
            <==> multiset(EntriesOf(sha, fs, paths)) == multiset(EntriesOf(sha, fs', paths'))
  {
    EntriesPlain(sha, fs, paths);
    EntriesPlain(sha, fs', paths');
    EntriesConsistent(sha, fs, paths);
    PreimageIsMultiset(EntriesOf(sha, fs, paths), EntriesOf(sha, fs', paths'));
  }

  /** sort.Slice by path: ties may fall either way, so only order and content are promised. */
  method SortEntries(es: seq<Entry>) returns (r: seq<Entry>)
    ensures multiset(r) == multiset(es) && Sorted(r)
  {
    SortSorted(es);
    r := Sort(es);
  }

  lemma EntriesStep(sha: string -> string, fs: Fs, paths: seq<string>, i: nat, sofar: seq<Entry>)
    requires i < |paths|
    ensures var p := Components(paths[i]);
      (if IsFile(fs, p) then sofar + [Entry(paths[i], sha(fs[p].data))] else sofar) + EntriesOf(sha, fs, paths[i + 1..])
      == sofar + EntriesOf(sha, fs, paths[i..])
  {
    assert paths[i..][1..] == paths[i + 1..];
    var rest := EntriesOf(sha, fs, paths[i + 1..]);
    assert [] + rest == rest;
  }

  /** The loop that inspects the paths and collects the regular files. */
  method CollectEntries(sha: string -> string, fs: Fs, paths: seq<string>) returns (r: Option<seq<Entry>>)
    ensures r.Some? <==> Compute(sha, fs, paths).Some?
    ensures r.Some? ==> r.value == EntriesOf(sha, fs, paths)
  {
    var entries: seq<Entry> := [];
    var i := 0;
    while i < |paths|
      invariant 0 <= i <= |paths|
      invariant forall j :: 0 <= j < i ==> !(Components(paths[j]) !in fs && Blocked(fs, Components(paths[j])))
      invariant entries + EntriesOf(sha, fs, paths[i..]) == EntriesOf(sha, fs, paths)
    {
      var p := Components(paths[i]);
      if p !in fs && Blocked(fs, p) { return None; }
      EntriesStep(sha, fs, paths, i, entries);
      if IsFile(fs, p) {
        entries := entries + [Entry(paths[i], sha(fs[p].data))];
      }
      i := i + 1;
    }
    assert paths[i..] == [];
    return Some(entries);
  }

  /** The loop that writes one line for each entry. */
  method Lines(es: seq<Entry>) returns (text: string)
    ensures text == Preimage(es)
  {
    text := "";
    var k := 0;
    while k < |es|
      invariant 0 <= k <= |es|
      invariant text + Preimage(es[k..]) == Preimage(es)
    {
      var line := es[k].path + ":" + es[k].hash + "\n";
      assert es[k..][1..] == es[k + 1..];
      assert text + (line + Preimage(es[k + 1..])) == text + line + Preimage(es[k + 1..]);
      text := text + line;
      k := k + 1;
    }
    assert es[k..] == [];
  }

  /** ComputeChecksum as it runs: collect, sort, concatenate, hash. However the sort orders ties,
      the result is the one the file set determines. */
  method ComputeChecksum(sha: string -> string, fs: Fs, paths: seq<string>) returns (r: Option<string>)
    ensures r == Compute(sha, fs, paths)
  {
    var entries := CollectEntries(sha, fs, paths);
    if entries.None? { return None; }
    if entries.value == [] { return Some(""); }
    var sorted := SortEntries(entries.value);
    SortSorted(entries.value);
    EntriesConsistent(sha, fs, paths);
    SortedConsistent(entries.value);
    SortedUnique(Sort(entries.value), sorted);
    var text := Lines(sorted);
    r := Some(sha(text));
  }
}
