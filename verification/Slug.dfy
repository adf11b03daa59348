/** Kebab-case names made from titles. */
module Slug {
  import opened Text
  import opened Envelope

  predicate IsAlnum(c: char) {
    'a' <= c <= 'z' || '0' <= c <= '9'
  }

  // ---------------------------------------------------------------- the builder

  /** One turn of the loop: the builder ends in a hyphen exactly when prevHyphen is set. */
  function Push(sb: string, c: char): string {
    if IsAlnum(c) then sb + [c]
    else if sb != "" && sb[|sb| - 1] != '-' then sb + "-"
    else sb
  }

  function Build(s: string): string {
    if s == "" then "" else Push(Build(s[..|s| - 1]), s[|s| - 1])
  }

  /** strings.TrimRight for hyphens. */
  function TrimHyphens(s: string): string {
    if s != "" && s[|s| - 1] == '-' then TrimHyphens(s[..|s| - 1]) else s
  }

  function Slug(title: string): string {
    TrimHyphens(Build(ToLower(title)))
  }

  /** titleToName. */
  method TitleToName(title: string) returns (name: string)
    ensures name == Slug(title)
  {
    var s := ToLower(title);
    var sb := "";
    var prevHyphen := false;
    var i := 0;
    while i < |s|
      invariant 0 <= i <= |s| && sb == Build(s[..i])
      invariant prevHyphen <==> sb != "" && sb[|sb| - 1] == '-'
    {
      var r := s[i];
      assert s[..i + 1][..i] == s[..i];
      if 'a' <= r <= 'z' || '0' <= r <= '9' {
        sb := sb + [r];
        prevHyphen := false;
      } else {
        if !prevHyphen && |sb| > 0 {
          sb := sb + "-";
          prevHyphen := true;
        }
      }
      i := i + 1;
    }
    assert s[..i] == s;
    name := TrimHyphens(sb);
  }

  // ---------------------------------------------------------------- the words of a title

  /** The maximal runs of letters and digits, in order. */
  function Words(s: string): (ws: seq<string>)
    ensures s != "" && IsAlnum(s[|s| - 1]) ==> ws != []
  {
    if s == "" then []
    else
      var most, c := s[..|s| - 1], s[|s| - 1];
      var ws := Words(most);
      if !IsAlnum(c) then ws
      else if most != "" && IsAlnum(most[|most| - 1]) then ws[..|ws| - 1] + [ws[|ws| - 1] + [c]]
      else ws + [[c]]
  }

  lemma {:induction false} JoinLast(ws: seq<string>, w: string)
    ensures Join(ws + [w], "-") == if ws == [] then w else Join(ws, "-") + "-" + w
  {
    if ws != [] {
      JoinLast(ws[1..], w);
      assert (ws + [w])[1..] == ws[1..] + [w];
      if |ws| > 1 {
        assert ws[0] + "-" + (Join(ws[1..], "-") + "-" + w) == ws[0] + "-" + Join(ws[1..], "-") + "-" + w;
      }
    }
  }

  lemma JoinGrows(ws: seq<string>, w: string, c: char)
    ensures Join(ws + [w + [c]], "-") == Join(ws + [w], "-") + [c]
  {
    JoinLast(ws, w);
    JoinLast(ws, w + [c]);
  }

  predicate AllAlnum(w: string) {
    w != "" && forall i :: 0 <= i < |w| ==> IsAlnum(w[i])
  }

  predicate EndsAlnum(s: string) {
    s != "" && IsAlnum(s[|s| - 1])
  }

  lemma {:induction false} WordsAreAlnum(s: string)
    ensures forall w :: w in Words(s) ==> AllAlnum(w)
  {
    if s != "" {
      var ws := Words(s[..|s| - 1]);
      WordsAreAlnum(s[..|s| - 1]);
      forall w | w in Words(s)
        ensures AllAlnum(w)
      {
        assert w in ws || w == [s[|s| - 1]] || (ws != [] && w == ws[|ws| - 1] + [s[|s| - 1]]);
        assert ws != [] ==> ws[|ws| - 1] in ws;
      }
    }
  }

  lemma JoinEnds(ws: seq<string>)
    requires ws != [] && forall w :: w in ws ==> AllAlnum(w)
    ensures EndsAlnum(Join(ws, "-"))
  {
    var n := |ws| - 1;
    assert ws == ws[..n] + [ws[n]] && ws[n] in ws;
    JoinLast(ws[..n], ws[n]);
  }

  /** The hyphen after the words so far, if one is pending. */
  function Pending(s: string): string {
    if Words(s) != [] && !EndsAlnum(s) then "-" else ""
  }

  lemma PushPending(joined: string, c: char)
    requires joined == "" || EndsAlnum(joined)
    ensures IsAlnum(c) ==> Push(joined, c) == joined + [c] && Push(joined + "-", c) == joined + "-" + [c]
    ensures !IsAlnum(c) ==>
              Push(joined + "-", c) == joined + "-" && Push(joined, c) == if joined == "" then "" else joined + "-"
  {
  }

  /** The builder holds the words seen so far, with a hyphen after them if one is pending. */
  lemma {:induction false} BuildIsJoin(s: string)
    ensures Build(s) == Join(Words(s), "-") + Pending(s)
  {
    if s != "" {
      var most, c := s[..|s| - 1], s[|s| - 1];
      var ws := Words(most);
      var joined := Join(ws, "-");
      BuildIsJoin(most);
      WordsAreAlnum(most);
      if ws != [] { JoinEnds(ws); }
      PushPending(joined, c);
      assert joined + "" == joined;
      if IsAlnum(c) {
        if EndsAlnum(most) {
          assert ws == ws[..|ws| - 1] + [ws[|ws| - 1]];
          JoinGrows(ws[..|ws| - 1], ws[|ws| - 1], c);
          assert joined + [c] + "" == joined + [c];
        } else {
          JoinLast(ws, [c]);
        }
      }
    }
  }

  /** A name is the words of the lowered title joined by single hyphens, and nothing else. */
  lemma SlugJoinsWords(title: string)
    ensures Slug(title) == Join(Words(ToLower(title)), "-")
    ensures forall w :: w in Words(ToLower(title)) ==> AllAlnum(w)
  {
    var s := ToLower(title);
    var joined := Join(Words(s), "-");
    BuildIsJoin(s);
    WordsAreAlnum(s);
    if Words(s) != [] { JoinEnds(Words(s)); }
    assert joined + "" == joined;
    TrimOne(joined);
  }

  lemma TrimOne(joined: string)
    requires joined == "" || EndsAlnum(joined)
    ensures TrimHyphens(joined) == joined && TrimHyphens(joined + "-") == joined
  {
    var s := joined + "-";
    assert s[|s| - 1] == '-' && s[..|s| - 1] == joined;
  }

  // ---------------------------------------------------------------- shape

  /** Letters and digits joined by single hyphens, none at either end. */
  predicate Kebab(s: string) {
    && (forall i :: 0 <= i < |s| ==> IsAlnum(s[i]) || s[i] == '-')
    && (forall i :: 0 <= i < |s| && s[i] == '-' ==> 0 < i && s[i - 1] != '-')
    && (s != "" ==> s[|s| - 1] != '-')
  }

  predicate Prefixed(s: string) {
    && (forall i :: 0 <= i < |s| ==> IsAlnum(s[i]) || s[i] == '-')
    && (forall i :: 0 <= i < |s| && s[i] == '-' ==> 0 < i && s[i - 1] != '-')
  }

  lemma {:induction false} BuildShape(s: string)
    ensures Prefixed(Build(s))
  {
    if s != "" { BuildShape(s[..|s| - 1]); }
  }

  function Alnums(s: string): string {
    if s == "" then ""
    else Alnums(s[..|s| - 1]) + if IsAlnum(s[|s| - 1]) then [s[|s| - 1]] else ""
  }

  lemma AlnumsLast(s: string, c: char)
    ensures Alnums(s + [c]) == Alnums(s) + if IsAlnum(c) then [c] else ""
  {
    assert (s + [c])[..|s|] == s;
  }

  lemma {:induction false} BuildKeeps(s: string)
    ensures Alnums(Build(s)) == Alnums(s)
  {
    if s != "" {
      var most, c := s[..|s| - 1], s[|s| - 1];
      BuildKeeps(most);
      AlnumsLast(Build(most), c);
      AlnumsLast(Build(most), '-');
    }
  }

  lemma {:induction false} TrimShape(s: string)
    requires Prefixed(s)
    ensures Kebab(TrimHyphens(s)) && Alnums(TrimHyphens(s)) == Alnums(s)
  {
    if s != "" && s[|s| - 1] == '-' {
      TrimShape(s[..|s| - 1]);
      assert s == s[..|s| - 1] + ['-'];
    }
  }

  lemma {:induction false} BuildFixes(s: string)
    requires Prefixed(s)
    ensures Build(s) == s
  {
    if s != "" {
      BuildFixes(s[..|s| - 1]);
      assert s == s[..|s| - 1] + [s[|s| - 1]];
    }
  }

  lemma LowerFixes(s: string)
    requires Kebab(s)
    ensures ToLower(s) == s
  {
  }

  /** Every name has the kebab shape, keeps the letters and digits of the lowered title in order,
      and is its own name. */
  lemma SlugShape(title: string)
    ensures Kebab(Slug(title))
    ensures Alnums(Slug(title)) == Alnums(ToLower(title))
    ensures Slug(Slug(title)) == Slug(title)
  {
    var s := ToLower(title);
    BuildShape(s);
    BuildKeeps(s);
    TrimShape(Build(s));
    var name := Slug(title);
    LowerFixes(name);
    BuildFixes(name);
    assert TrimHyphens(name) == name;
  }
}
