/** Lexical path handling as filepath.Clean, filepath.Join and the prefix checks do it on Unix,
    and the component lists those strings stand for. */
module Paths {
  import opened Text

  /** A clean absolute path as the list of its components; the root is the empty list. */
  type Path = seq<string>

  predicate ValidName(n: string) {
    n != "" && n != "." && n != ".." && '/' !in n
  }

  predicate ValidPath(c: Path) {
    forall i :: 0 <= i < |c| ==> ValidName(c[i])
  }

  predicate IsAbs(p: string) {
    p != "" && p[0] == '/'
  }

  /** One pass over the segments, keeping a stack of components. */
  function Normalize(rooted: bool, segs: seq<string>, acc: seq<string>): seq<string>
    decreases |segs|
  {
    if segs == [] then acc
    else
      var s := segs[0];
      var acc' :=
        if s == "" || s == "." then acc
        else if s != ".." then acc + [s]
        else if acc != [] && acc[|acc| - 1] != ".." then acc[..|acc| - 1]
        else if rooted then acc
        else acc + [s];
      Normalize(rooted, segs[1..], acc')
  }

  /** The components of a path after cleaning. */
  function Components(p: string): seq<string> {
    Normalize(IsAbs(p), Split(p, '/'), [])
  }

  function Render(c: Path): string {
    "/" + Join(c, "/")
  }

  /** filepath.Clean. */
  function Clean(p: string): string {
    var c := Components(p);
    if IsAbs(p) then Render(c) else if c == [] then "." else Join(c, "/")
  }

  /** filepath.Join of two non-empty elements. */
  function JoinPath(a: string, b: string): string {
    Clean(a + "/" + b)
  }

  /** Whether a is a proper ancestor of b. */
  predicate Above(a: Path, b: Path) {
    |a| < |b| && b[..|a|] == a
  }

  function Parent(p: Path): Path
    requires p != []
  {
    p[..|p| - 1]
  }

  // ---------------------------------------------------------------- cleaning

  lemma {:induction false} NormalizeValid(segs: seq<string>, acc: seq<string>)
    requires ValidPath(acc)
    requires forall s :: s in segs ==> '/' !in s
    ensures ValidPath(Normalize(true, segs, acc))
    decreases |segs|
  {
    if segs != [] {
      var s := segs[0];
      assert s in segs;
      var acc' :=
        if s == "" || s == "." then acc
        else if s != ".." then acc + [s]
        else if acc != [] && acc[|acc| - 1] != ".." then acc[..|acc| - 1]
        else acc;
      NormalizeValid(segs[1..], acc');
    }
  }

  /** Cleaning an absolute path leaves no empty, dot or dot-dot component. */
  lemma ComponentsValid(p: string)
    requires IsAbs(p)
    ensures ValidPath(Components(p))
  {
    SplitPieces(p, '/');
    NormalizeValid(Split(p, '/'), []);
  }

  lemma {:induction false} NormalizeNames(rooted: bool, segs: seq<string>, acc: seq<string>)
    requires ValidPath(segs)
    ensures Normalize(rooted, segs, acc) == acc + segs
    decreases |segs|
  {
    if segs != [] {
      assert ValidName(segs[0]);
      NormalizeNames(rooted, segs[1..], acc + [segs[0]]);
      assert acc + [segs[0]] + segs[1..] == acc + segs;
    } else {
      assert acc + segs == acc;
    }
  }

  lemma {:induction false} NormalizeAppend(rooted: bool, a: seq<string>, b: seq<string>, acc: seq<string>)
    ensures Normalize(rooted, a + b, acc) == Normalize(rooted, b, Normalize(rooted, a, acc))
    decreases |a|
  {
    if a == [] {
      assert a + b == b;
    } else {
      var s := a[0];
      var acc' :=
        if s == "" || s == "." then acc
        else if s != ".." then acc + [s]
        else if acc != [] && acc[|acc| - 1] != ".." then acc[..|acc| - 1]
        else if rooted then acc
        else acc + [s];
      assert (a + b)[1..] == a[1..] + b;
      NormalizeAppend(rooted, a[1..], b, acc');
    }
  }

  /** A plain name joined to any absolute path is one more component. */
  lemma ComponentsChild(p: string, name: string)
    requires IsAbs(p) && ValidName(name)
    ensures IsAbs(p + "/" + name) && Components(p + "/" + name) == Components(p) + [name]
  {
    SplitConcat(p, '/', name);
    SplitWhole(name, '/');
    NormalizeAppend(true, Split(p, '/'), [name], []);
    assert [name][1..] == [];
  }

  lemma {:induction false} NormalizeNonEmpty(rooted: bool, segs: seq<string>, acc: seq<string>)
    requires forall s :: s in acc ==> s != ""
    ensures forall s :: s in Normalize(rooted, segs, acc) ==> s != ""
    decreases |segs|
  {
    if segs != [] {
      var s := segs[0];
      var acc' :=
        if s == "" || s == "." then acc
        else if s != ".." then acc + [s]
        else if acc != [] && acc[|acc| - 1] != ".." then acc[..|acc| - 1]
        else if rooted then acc
        else acc + [s];
      assert forall x :: x in acc' ==> x in acc || (x == s && s != "");
      NormalizeNonEmpty(rooted, segs[1..], acc');
    }
  }

  /** filepath.Clean never returns an empty string, so nothing passes a prefix check as the root. */
  lemma PrefixedNotRoot(p: string, dir: string)
    requires IsAbs(p) && HasPrefix(Clean(p), Clean(dir) + "/")
    ensures Components(p) != []
  {
    var c := Components(dir);
    NormalizeNonEmpty(IsAbs(dir), Split(dir, '/'), []);
    assert c != [] ==> c[0] in c;
    assert Clean(dir) != "";
    assert |Clean(p)| >= 2;
  }

  lemma RenderSplits(c: Path)
    requires ValidPath(c)
    ensures Split(Render(c), '/') == if c == [] then ["", ""] else [""] + c
  {
    assert Render(c) == "" + ['/'] + Join(c, "/");
    SplitConcat("", '/', Join(c, "/"));
    if c != [] {
      forall p | p in c
        ensures '/' !in p
      {
        var i :| 0 <= i < |c| && c[i] == p;
        assert ValidName(c[i]);
      }
      SplitJoin(c, '/');
    }
  }

  /** A clean path is its own cleaning, so distinct component lists print differently. */
  lemma RenderComponents(c: Path)
    requires ValidPath(c)
    ensures IsAbs(Render(c)) && Components(Render(c)) == c
  {
    RenderSplits(c);
    var segs := Split(Render(c), '/');
    assert segs[0] == "";
    assert Normalize(true, segs, []) == Normalize(true, segs[1..], []);
    if c == [] {
      assert segs[1..] == [""];
      assert Normalize(true, [""], []) == Normalize(true, [""][1..], []);
    } else {
      assert segs[1..] == c;
      NormalizeNames(true, c, []);
    }
  }

  // ---------------------------------------------------------------- the prefix check

  lemma {:induction false} JoinAppend(a: seq<string>, b: seq<string>)
    requires a != [] && b != []
    ensures Join(a + b, "/") == Join(a, "/") + "/" + Join(b, "/")
  {
    if |a| == 1 {
      assert (a + b)[1..] == b;
    } else {
      assert (a + b)[1..] == a[1..] + b;
      JoinAppend(a[1..], b);
      assert a[0] + "/" + (Join(a[1..], "/") + "/" + Join(b, "/"))
             == a[0] + "/" + Join(a[1..], "/") + "/" + Join(b, "/");
    }
  }

  lemma AboveHasPrefix(d: Path, p: Path)
    requires d != [] && Above(d, p)
    ensures HasPrefix(Render(p), Render(d) + "/")
  {
    var rest := p[|d|..];
    assert p == d + rest;
    JoinAppend(d, rest);
    Prefixed("/" + Join(d, "/") + "/", Join(rest, "/"));
    assert Render(p) == "/" + Join(d, "/") + "/" + Join(rest, "/");
  }

  lemma Prefixed(a: string, b: string)
    ensures HasPrefix(a + b, a)
  {
  }

  lemma HasPrefixAbove(d: Path, p: Path)
    requires ValidPath(d) && ValidPath(p) && p != []
    requires HasPrefix(Render(p), Render(d) + "/")
    ensures d != [] && Above(d, p)
  {
    var a := Render(d);
    var x := Render(p)[|a| + 1..];
    Prefixed1(Render(p), a);
    SplitConcat(a, '/', x);
    assert Split(a, '/') == if d == [] then ["", ""] else [""] + d by { RenderSplits(d); }
    assert Split(Render(p), '/') == [""] + p by { RenderSplits(p); }
    HeadBelow(d, p, Split(x, '/'));
  }

  lemma HeadBelow(d: Path, p: Path, tail: seq<string>)
    requires ValidPath(p) && p != [] && tail != []
    requires [""] + p == (if d == [] then ["", ""] else [""] + d) + tail
    ensures d != [] && Above(d, p)
  {
    var whole := [""] + p;
    assert whole[1] == p[0] && ValidName(p[0]);
    assert whole[1..] == p;
    assert ([""] + d + tail)[1..] == d + tail;
  }

  lemma Prefixed1(s: string, a: string)
    requires HasPrefix(s, a + "/")
    ensures s == a + ['/'] + s[|a| + 1..]
  {
  }

  /** The string test "starts with the directory and a separator" holds exactly for the paths
      properly below the directory, except that nothing passes it for the root. */
  lemma PrefixMeansAbove(d: Path, p: Path)
    requires ValidPath(d) && ValidPath(p)
    ensures HasPrefix(Render(p), Render(d) + "/") <==> d != [] && Above(d, p)
  {
    if d != [] && Above(d, p) {
      AboveHasPrefix(d, p);
    }
    if p != [] && HasPrefix(Render(p), Render(d) + "/") {
      HasPrefixAbove(d, p);
    }
  }

  /** Joining a clean directory and clean relative names just appends the components. */
  lemma JoinBelow(d: Path, names: seq<string>)
    requires ValidPath(d) && ValidPath(names) && names != []
    ensures JoinPath(Render(d), Join(names, "/")) == Render(d + names)
    ensures IsAbs(Render(d) + "/" + Join(names, "/")) && Components(Render(d) + "/" + Join(names, "/")) == d + names
  {
    var s := Render(d) + "/" + Join(names, "/");
    JoinSplits(d, names);
    assert s[0] == '/';
    if d == [] {
      NormalizeDouble(names);
    } else {
      SkipEmpty(d + names, []);
      NormalizeNames(true, d + names, []);
      assert [] + (d + names) == d + names;
    }
    assert d == [] ==> d + names == names;
  }

  lemma JoinSplits(d: Path, names: seq<string>)
    requires ValidPath(d) && ValidPath(names) && names != []
    ensures Split(Render(d) + "/" + Join(names, "/"), '/')
            == if d == [] then [""] + ([""] + names) else [""] + (d + names)
  {
    var a, b := Render(d), Join(names, "/");
    assert Split(a, '/') == if d == [] then ["", ""] else [""] + d by { RenderSplits(d); }
    assert Split(b, '/') == names by { NamesSplit(names); }
    SplitConcat(a, '/', b);
    assert a + ['/'] + b == a + "/" + b;
    Shifted(d, names);
  }

  lemma Shifted(d: Path, names: seq<string>)
    ensures ["", ""] + names == [""] + ([""] + names)
    ensures [""] + d + names == [""] + (d + names)
  {
  }

  lemma NamesSplit(names: seq<string>)
    requires ValidPath(names) && names != []
    ensures Split(Join(names, "/"), '/') == names
  {
    forall p | p in names
      ensures '/' !in p
    {
      var i :| 0 <= i < |names| && names[i] == p;
      assert ValidName(names[i]);
    }
    SplitJoin(names, '/');
  }

  lemma NormalizeDouble(names: seq<string>)
    requires ValidPath(names)
    ensures Normalize(true, [""] + ([""] + names), []) == names
  {
    SkipEmpty([""] + names, []);
    SkipEmpty(names, []);
    NormalizeNames(true, names, []);
    assert [] + names == names;
  }

  lemma SkipEmpty(segs: seq<string>, acc: seq<string>)
    ensures Normalize(true, [""] + segs, acc) == Normalize(true, segs, acc)
  {
    assert ([""] + segs)[1..] == segs;
  }
}
