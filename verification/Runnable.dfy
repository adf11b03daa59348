/** Does emitted text name a command that can be run as it stands? */
module Runnable {
  import opened Text

  const PRODUCT: string := "gentle-ai"

  /** unicode.IsSpace. */
  predicate IsSpace(c: char) {
    var n := c as int;
    c == ' ' || 9 <= n <= 13 || n == 0x85 || n == 0xA0 || n == 0x1680 || 0x2000 <= n <= 0x200A
    || n == 0x2028 || n == 0x2029 || n == 0x202F || n == 0x205F || n == 0x3000
  }

  /** The regexp class \s: no vertical tab and nothing beyond ASCII. */
  predicate IsRegexSpace(c: char) {
    c == ' ' || c == '\t' || c == '\n' || c as int == 12 || c == '\r'
  }

  predicate IsOpener(c: char) {
    IsRegexSpace(c) || c in "'\"`(["
  }

  predicate IsCloser(c: char) {
    IsRegexSpace(c) || c in "'\"`)]"
  }

  /** A quote or bracket that ends a suggested command. */
  predicate IsCut(c: char) {
    c in "'\"`)]"
  }

  // ---------------------------------------------------------------- fields

  /** The leading run of characters that are not whitespace. */
  function Word(s: string): (w: string)
    ensures |w| <= |s| && s[..|w|] == w && (forall i :: 0 <= i < |w| ==> !IsSpace(w[i]))
    ensures |w| < |s| ==> IsSpace(s[|w|])
  {
    if s == "" || IsSpace(s[0]) then ""
    else
      var w := Word(s[1..]);
      [s[0]] + w
  }

  /** strings.Fields. */
  function Fields(s: string): seq<string>
    decreases |s|
  {
    if s == "" then []
    else if IsSpace(s[0]) then Fields(s[1..])
    else [Word(s)] + Fields(s[|Word(s)|..])
  }

  /** The position of the first cut character, or the length. */
  function CutAt(s: string): (i: nat)
    ensures i <= |s| && (forall j :: 0 <= j < i ==> !IsCut(s[j])) && (i < |s| ==> IsCut(s[i]))
  {
    if s == "" || IsCut(s[0]) then 0 else 1 + CutAt(s[1..])
  }

  /** An unfilled template argument: angle brackets around no bracket and no whitespace. */
  predicate HasPlaceholder(t: string) {
    exists i, j :: 0 <= i < j < |t| && t[i] == '<' && t[j] == '>' && NoBreak(t, i + 1, j)
  }

  predicate NoBreak(t: string, i: nat, j: nat)
    requires i <= j <= |t|
  {
    forall k :: i <= k < j ==> t[k] != '>' && !IsRegexSpace(t[k])
  }

  // ---------------------------------------------------------------- the argument list

  /** The arguments a tail offers: the fields before its first quote or bracket. */
  function Arguments(tail: string): seq<string> {
    Fields(tail[..CutAt(tail)])
  }

  predicate TailIsRunnable(tail: string) {
    Arguments(tail) != [] && NoPlaceholder(Arguments(tail))
  }

  /** The tokens the scan looks at: whole fields, then the one with a cut up to it, if any is left. */
  function Scanned(tokens: seq<string>): seq<string> {
    if tokens == [] then []
    else if CutAt(tokens[0]) == |tokens[0]| then [tokens[0]] + Scanned(tokens[1..])
    else if CutAt(tokens[0]) == 0 then []
    else [tokens[0][..CutAt(tokens[0])]]
  }

  lemma WordThenSpace(w: string, t: string)
    requires w != "" && (forall i :: 0 <= i < |w| ==> !IsSpace(w[i]))
    requires t == "" || IsSpace(t[0])
    ensures Word(w + t) == w && Fields(w + t) == [w] + Fields(t)
    decreases |w|
  {
    assert (w + t)[1..] == w[1..] + t;
    if |w| == 1 {
      assert w[1..] + t == t;
      assert Word(t) == "";
    } else {
      WordThenSpace(w[1..], t);
    }
    assert w == [w[0]] + w[1..];
    assert (w + t)[|w|..] == t;
  }

  lemma CutSplits(w: string, t: string)
    ensures CutAt(w) < |w| ==> CutAt(w + t) == CutAt(w)
    ensures CutAt(w) == |w| ==> CutAt(w + t) == |w| + CutAt(t)
    decreases |w|
  {
    if w == "" {
      assert w + t == t;
    } else {
      assert (w + t)[1..] == w[1..] + t;
      CutSplits(w[1..], t);
    }
  }

  /** Cutting the field in hand is the same as cutting the text before splitting it. */
  lemma {:induction false} ScanIsArguments(tail: string)
    ensures Scanned(Fields(tail)) == Arguments(tail)
    decreases |tail|
  {
    if tail == "" {
    } else if IsSpace(tail[0]) {
      ScanIsArguments(tail[1..]);
      assert tail[..CutAt(tail)][1..] == tail[1..][..CutAt(tail[1..])];
    } else {
      var w := Word(tail);
      var t := tail[|w|..];
      assert tail == w + t && w != "";
      CutSplits(w, t);
      if CutAt(w) < |w| {
        assert tail[..CutAt(tail)] == w[..CutAt(w)];
        OneWord(w[..CutAt(w)]);
      } else {
        ScanIsArguments(t);
        ArgumentsAfterWord(w, t);
      }
      assert Scanned(Fields(tail)) == if CutAt(w) == |w| then [w] + Scanned(Fields(t)) else OneField(w[..CutAt(w)]) by {
        assert Fields(tail) == [w] + Fields(t);
        assert ([w] + Fields(t))[1..] == Fields(t);
      }
    }
  }

  function OneField(w: string): seq<string> {
    if w == "" then [] else [w]
  }

  lemma ArgumentsAfterWord(w: string, t: string)
    requires w != "" && (forall i :: 0 <= i < |w| ==> !IsSpace(w[i])) && CutAt(w) == |w|
    requires t == "" || IsSpace(t[0])
    ensures Arguments(w + t) == [w] + Arguments(t)
  {
    var k := CutAt(t);
    CutAfterWord(w, t);
    WordThenSpace(w, t[..k]);
  }

  lemma CutAfterWord(w: string, t: string)
    requires CutAt(w) == |w|
    ensures (w + t)[..CutAt(w + t)] == w + t[..CutAt(t)]
  {
    CutSplits(w, t);
    TakeAfter(w, t, CutAt(t));
  }

  lemma TakeAfter(w: string, t: string, k: nat)
    requires k <= |t|
    ensures (w + t)[..|w| + k] == w + t[..k]
  {
  }

  lemma OneWord(w: string)
    requires forall i :: 0 <= i < |w| ==> !IsSpace(w[i])
    ensures Fields(w) == OneField(w)
  {
    if w != "" {
      WordThenSpace(w, "");
      assert w + "" == w;
    }
  }

  predicate NoPlaceholder(ts: seq<string>) {
    forall t :: t in ts ==> !HasPlaceholder(t)
  }

  /** What the scan answers from some field on, with the arguments counted so far. */
  predicate Verdict(tokens: seq<string>, arguments: nat)
    decreases |tokens|
  {
    if tokens == [] then arguments > 0
    else
      var cut := CutAt(tokens[0]);
      if cut == |tokens[0]| then !HasPlaceholder(tokens[0]) && Verdict(tokens[1..], arguments + 1)
      else if cut == 0 then arguments > 0
      else !HasPlaceholder(tokens[0][..cut])
  }

  lemma {:induction false} VerdictMeans(tokens: seq<string>, arguments: nat)
    ensures Verdict(tokens, arguments) <==> (arguments > 0 || Scanned(tokens) != []) && NoPlaceholder(Scanned(tokens))
    decreases |tokens|
  {
    if tokens != [] {
      VerdictMeans(tokens[1..], arguments + 1);
      NoPlaceholderIn(tokens[0], Scanned(tokens[1..]));
      NoPlaceholderIn(tokens[0][..CutAt(tokens[0])], []);
    }
  }

  lemma NoPlaceholderIn(w: string, more: seq<string>)
    ensures NoPlaceholder([w] + more) <==> !HasPlaceholder(w) && NoPlaceholder(more)
    ensures more == [] ==> [w] + more == [w]
  {
    assert forall t :: t in [w] + more <==> t == w || t in more;
  }

  /** commandTailIsRunnable: the scan over the fields, with its counter and its early exits. */
  method CommandTailIsRunnable(tail: string) returns (r: bool)
    ensures r <==> TailIsRunnable(tail)
  {
    var tokens := Fields(tail);
    ScanIsArguments(tail);
    VerdictMeans(tokens, 0);
    r := ScanTokens(tokens);
  }

  method ScanTokens(tokens: seq<string>) returns (r: bool)
    ensures r == Verdict(tokens, 0)
  {
    var arguments := 0;
    var i := 0;
    assert tokens[0..] == tokens;
    while i < |tokens|
      invariant 0 <= i <= |tokens|
      invariant Verdict(tokens[i..], arguments) == Verdict(tokens, 0)
    {
      var token := tokens[i];
      assert tokens[i..][0] == token && tokens[i..][1..] == tokens[i + 1..];
      var cut := CutAt(token);
      if cut < |token| {
        token := token[..cut];
        if token == "" { return arguments > 0; }
        if HasPlaceholder(token) { return false; }
        arguments := arguments + 1;
        return arguments > 0;
      }
      if HasPlaceholder(token) { return false; }
      arguments := arguments + 1;
      i := i + 1;
    }
    r := arguments > 0;
  }

  // ---------------------------------------------------------------- where a command can start

  predicate NameAt(line: string, i: nat) {
    OccursAt(line, PRODUCT, i) && (i + |PRODUCT| == |line| || IsCloser(line[i + |PRODUCT|]))
  }

  /** A match of the command pattern: where it starts, where the name does, and where it ends. */
  datatype Match = Match(start: nat, name: nat, end: nat)

  /** The product name at the start of the line or after an opener, and before a closer or the
      end of the line; the delimiters belong to the match. */
  predicate IsMatch(line: string, m: Match) {
    && NameAt(line, m.name)
    && ((m.start == 0 && m.name == 0) || (m.start + 1 == m.name && IsOpener(line[m.start])))
    && m.end == (if m.name + |PRODUCT| == |line| then |line| else m.name + |PRODUCT| + 1)
  }

  function MatchEnd(line: string, name: nat): nat {
    if name + |PRODUCT| == |line| then |line| else name + |PRODUCT| + 1
  }

  /** The leftmost match that starts at or after from. */
  function NextMatch(line: string, from: nat): (r: Option<Match>)
    ensures r.Some? ==> IsMatch(line, r.value) && from <= r.value.start < r.value.end <= |line|
    ensures forall m :: IsMatch(line, m) && from <= m.start ==> r.Some? && r.value.start <= m.start
    decreases |line| - from
  {
    if from >= |line| then None
    else if from == 0 && NameAt(line, 0) then Some(Match(0, 0, MatchEnd(line, 0)))
    else if IsOpener(line[from]) && NameAt(line, from + 1) then Some(Match(from, from + 1, MatchEnd(line, from + 1)))
    else NextMatch(line, from + 1)
  }

  /** FindAllStringIndex: matches from left to right that do not overlap. */
  function Matches(line: string, from: nat): (ms: seq<Match>)
    decreases |line| - from
  {
    match NextMatch(line, from)
    case None => []
    case Some(m) => [m] + Matches(line, m.end)
  }

  /** Each is a match, and the next one starts no earlier than it ends. */
  lemma {:induction false} MatchAt(line: string, from: nat, i: nat)
    requires i < |Matches(line, from)|
    ensures var ms := Matches(line, from);
      && IsMatch(line, ms[i]) && from <= ms[i].start < ms[i].end <= |line|
      && (i + 1 < |ms| ==> ms[i].end <= ms[i + 1].start <= |line|)
    decreases i
  {
    var first := NextMatch(line, from).value;
    var rest := Matches(line, first.end);
    assert Matches(line, from) == [first] + rest;
    if i > 0 { MatchAt(line, first.end, i - 1); }
  }

  /** No place where a command could begin is passed over: each lies within a listed match. */
  lemma {:induction false} MatchesCover(line: string, from: nat, m: Match)
    requires IsMatch(line, m) && from <= m.start
    ensures exists i ::
              0 <= i < |Matches(line, from)| && Matches(line, from)[i].start <= m.start < Matches(line, from)[i].end
    decreases |line| - from
  {
    var first, ms := NextMatch(line, from).value, Matches(line, from);
    assert ms[0] == first;
    if first.end <= m.start {
      MatchesCover(line, first.end, m);
      var i :| 0 <= i < |Matches(line, first.end)|
        && Matches(line, first.end)[i].start <= m.start < Matches(line, first.end)[i].end;
      assert ms[i + 1] == Matches(line, first.end)[i];
    }
  }

  /** What follows the name of the i-th match, up to the next match or the end of the line. */
  function Tail(line: string, i: nat): string
    requires i < |Matches(line, 0)|
  {
    MatchAt(line, 0, i);
    var ms := Matches(line, 0);
    var from := ms[i].name + |PRODUCT|;
    line[from..if i + 1 < |ms| then ms[i + 1].start else |line|]
  }

  predicate LineIsRunnable(line: string) {
    exists i :: 0 <= i < |Matches(line, 0)| && TailIsRunnable(Tail(line, i))
  }

  /** HasRunnableCommand as a property of the text. */
  predicate NamesRunnable(text: string) {
    exists line :: line in Split(text, '\n') && LineIsRunnable(line)
  }

  /** HasRunnableCommand: line by line, match by match. */
  method HasRunnableCommand(text: string) returns (r: bool)
    ensures r <==> NamesRunnable(text)
  {
    var lines := Split(text, '\n');
    var k := 0;
    while k < |lines|
      invariant 0 <= k <= |lines|
      invariant forall j :: 0 <= j < k ==> !LineIsRunnable(lines[j])
    {
      var found := LineNamesCommand(lines[k]);
      if found { return true; }
      k := k + 1;
    }
    r := false;
  }

  /** The loop over the matches of one line. */
  method LineNamesCommand(line: string) returns (r: bool)
    ensures r <==> LineIsRunnable(line)
  {
    var positions := Matches(line, 0);
    var i := 0;
    while i < |positions|
      invariant 0 <= i <= |positions|
      invariant forall j :: 0 <= j < i ==> !TailIsRunnable(Tail(line, j))
    {
      var tail := TailOf(line, positions, i);
      var found := CommandTailIsRunnable(tail);
      if found { return true; }
      i := i + 1;
    }
    r := false;
  }

  /** The slice the loop takes for one match: the name is searched for inside the match. */
  method TailOf(line: string, positions: seq<Match>, i: nat) returns (tail: string)
    requires positions == Matches(line, 0) && i < |positions|
    ensures tail == Tail(line, i)
  {
    MatchAt(line, 0, i);
    var end := |line|;
    if i + 1 < |positions| { end := positions[i + 1].start; }
    var offset := Index(line[positions[i].start..positions[i].end], PRODUCT);
    OffsetIsName(line, positions[i]);
    tail := line[positions[i].start + offset + |PRODUCT|..end];
  }

  /** Searching the match text for the name finds it at its own place. */
  lemma OffsetIsName(line: string, m: Match)
    requires IsMatch(line, m) && m.start < m.end <= |line|
    ensures m.start + Index(line[m.start..m.end], PRODUCT) == m.name
  {
    assert m.start < m.name ==> IsOpener(line[m.start]) && line[m.start] != 'g';
    FoundInside(line, PRODUCT, m.start, m.end, m.name);
  }

  lemma FoundInside(line: string, t: string, from: nat, to: nat, at: nat)
    requires t != "" && from <= at <= from + 1 && at + |t| <= to <= |line| && OccursAt(line, t, at)
    requires at == from + 1 ==> line[from] != t[0]
    ensures Index(line[from..to], t) == at - from
  {
    var u := line[from..to];
    var k := at - from;
    assert forall i :: k <= i < k + |t| ==> u[i] == line[at..at + |t|][i - k];
    assert OccursAt(u, t, k);
    if OccursAt(u, t, 0) { assert u[0..0 + |t|][0] == u[0]; }
  }

  /** Lines are judged one by one, so putting two texts on separate lines adds nothing and loses
      nothing. */
  lemma RunnableConcat(a: string, b: string)
    ensures NamesRunnable(a + "\n" + b) <==> NamesRunnable(a) || NamesRunnable(b)
  {
    SplitConcat(a, '\n', b);
    assert a + ['\n'] + b == a + "\n" + b;
    forall line
      ensures line in Split(a + "\n" + b, '\n') <==> line in Split(a, '\n') || line in Split(b, '\n')
    {
    }
  }
}
