/** String searching and splitting, as the Go standard library does it, with the
    contracts the other modules reason from. Text is a sequence of Unicode scalar values. */
module Text {

  datatype Option<+T> = None | Some(value: T)

  predicate OccursAt(s: string, t: string, i: int) {
    0 <= i && i + |t| <= |s| && s[i..i + |t|] == t
  }

  ghost predicate Contains(s: string, t: string) {
    exists i :: OccursAt(s, t, i)
  }

  predicate HasPrefix(s: string, p: string) {
    |p| <= |s| && s[..|p|] == p
  }

  predicate HasSuffix(s: string, p: string) {
    |p| <= |s| && s[|s| - |p|..] == p
  }

  /** The first occurrence of t in s at or after k, or -1. */
  function IndexFrom(s: string, t: string, k: nat): (i: int)
    ensures i == -1 || (k <= i && OccursAt(s, t, i))
    ensures forall j :: k <= j && OccursAt(s, t, j) ==> 0 <= i <= j
    decreases |s| - k
  {
    if k + |t| > |s| then -1
    else if OccursAt(s, t, k) then k
    else IndexFrom(s, t, k + 1)
  }

  /** strings.Index. */
  function Index(s: string, t: string): (i: int)
    ensures i == -1 || OccursAt(s, t, i)
    ensures i == -1 <==> !Contains(s, t)
    ensures forall j :: OccursAt(s, t, j) ==> 0 <= i <= j
  {
    IndexFrom(s, t, 0)
  }

  /** strings.Split on a one-character separator. */
  function Split(s: string, c: char): (parts: seq<string>)
    ensures |parts| >= 1
  {
    if s == "" then [""]
    else
      var rest := Split(s[1..], c);
      if s[0] == c then [""] + rest else [[s[0]] + rest[0]] + rest[1..]
  }

  /** strings.Join. */
  function Join(parts: seq<string>, sep: string): string {
    if |parts| == 0 then ""
    else if |parts| == 1 then parts[0]
    else parts[0] + sep + Join(parts[1..], sep)
  }

  /** The pieces after one more character in front. */
  function Push(x: char, c: char, parts: seq<string>): seq<string>
    requires |parts| >= 1
  {
    if x == c then [""] + parts else [[x] + parts[0]] + parts[1..]
  }

  lemma SplitCons(x: char, s: string, c: char)
    ensures Split([x] + s, c) == Push(x, c, Split(s, c))
  {
    assert ([x] + s)[1..] == s;
  }

  lemma PushConcat(x: char, c: char, a: seq<string>, b: seq<string>)
    requires |a| >= 1
    ensures Push(x, c, a + b) == Push(x, c, a) + b
  {
  }

  lemma {:induction false} SplitConcat(a: string, c: char, b: string)
    ensures Split(a + [c] + b, c) == Split(a, c) + Split(b, c)
  {
    if a == "" {
      assert a + [c] + b == [c] + b;
      SplitCons(c, b, c);
    } else {
      var t := a[1..];
      SplitConcat(t, c, b);
      HeadFirst(a, c, b);
      SplitCons(a[0], t + [c] + b, c);
      SplitCons(a[0], t, c);
      PushConcat(a[0], c, Split(t, c), Split(b, c));
    }
  }

  lemma HeadFirst(a: string, c: char, b: string)
    requires a != ""
    ensures a + [c] + b == [a[0]] + (a[1..] + [c] + b) && a == [a[0]] + a[1..]
  {
  }

  /** The pieces hold no separator and join back to the text. */
  lemma {:induction false} SplitPieces(s: string, c: char)
    ensures forall p :: p in Split(s, c) ==> c !in p
    ensures Join(Split(s, c), [c]) == s
  {
    if s != "" {
      var rest := Split(s[1..], c);
      SplitPieces(s[1..], c);
      if s[0] == c {
        assert ([""] + rest)[1..] == rest;
        assert "" + [c] + s[1..] == s;
      } else {
        var parts := [[s[0]] + rest[0]] + rest[1..];
        assert parts[1..] == rest[1..];
        assert [s[0]] + s[1..] == s;
        if |rest| > 1 {
          assert [s[0]] + (rest[0] + [c] + Join(rest[1..], [c])) == [s[0]] + rest[0] + [c] + Join(rest[1..], [c]);
        }
      }
    }
  }

  lemma {:induction false} SplitWhole(s: string, c: char)
    requires c !in s
    ensures Split(s, c) == [s]
  {
    if s != "" {
      SplitWhole(s[1..], c);
      assert s[0] in s;
      assert [s[0]] + s[1..] == s;
      SplitCons(s[0], s[1..], c);
    }
  }

  /** Splitting undoes joining: the separator occurs in no part. */
  lemma {:induction false} SplitJoin(parts: seq<string>, c: char)
    requires |parts| >= 1
    requires forall p :: p in parts ==> c !in p
    ensures Split(Join(parts, [c]), c) == parts
  {
    if |parts| == 1 {
      SplitWhole(parts[0], c);
      assert [parts[0]] == parts;
    } else {
      SplitJoin(parts[1..], c);
      SplitWhole(parts[0], c);
      SplitConcat(parts[0], c, Join(parts[1..], [c]));
      assert [parts[0]] + parts[1..] == parts;
    }
  }
}
