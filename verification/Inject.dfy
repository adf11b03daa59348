/** Managed blocks in a system prompt file: one per custom agent, between two comment markers. */
module Inject {
  import opened Text
  import Slug

  const OPEN: string := "<!-- gentle-ai:custom-agent:"
  const CLOSE: string := "<!-- /gentle-ai:custom-agent:"
  const TAIL: string := " -->"

  function Marker(name: string): string {
    OPEN + name + TAIL
  }

  function EndMarker(name: string): string {
    CLOSE + name + TAIL
  }

  /** A block as buildSDDBlock lays it out. */
  function Block(name: string, body: string): string {
    Marker(name) + "\n" + (body + EndMarker(name))
  }

  function ExtractName(marker: string): string {
    if HasPrefix(marker, OPEN) && HasSuffix(marker, TAIL) && |OPEN| + |TAIL| <= |marker| then
      marker[|OPEN|..|marker| - |TAIL|]
    else ""
  }

  /** replaceBlock. */
  function ReplaceBlock(content: string, marker: string, block: string): string {
    var start := Index(content, marker);
    if start < 0 then content + "\n" + block
    else Spliced(content, start, EndMarker(ExtractName(marker)), block)
  }

  /** The block put in place of the one that begins at start. */
  function Spliced(content: string, start: nat, endMarker: string, block: string): string
    requires start <= |content|
  {
    content[..start] + block + AfterBlock(content[start..], endMarker)
  }

  /** What stays after the old block: the text after its end marker, or without one the text from
      the end of the line on. */
  function AfterBlock(rest: string, endMarker: string): string {
    var end := Index(rest, endMarker);
    if end >= 0 then rest[end + |endMarker|..]
    else
      var lineEnd := Index(rest, "\n");
      if lineEnd >= 0 then rest[lineEnd..] else ""
  }

  /** What InjectSDDReference makes of the content. */
  function Inject(content: string, name: string, body: string): string {
    if Index(content, Marker(name)) >= 0 then ReplaceBlock(content, Marker(name), Block(name, body))
    else LineEnded(content) + "\n" + Block(name, body) + "\n"
  }

  function LineEnded(content: string): string {
    if HasSuffix(content, "\n") then content else content + "\n"
  }

  lemma NameExtracted(name: string)
    ensures ExtractName(Marker(name)) == name
  {
    var m := Marker(name);
    assert m[|OPEN|..|m| - |TAIL|] == name;
  }

  // ---------------------------------------------------------------- tags

  /** An angle bracket opens the text and occurs nowhere else in it, and no line ends in it. */
  predicate Tag(t: string) {
    t != "" && t[0] == '<' && forall i :: 1 <= i < |t| ==> t[i] != '<' && t[i] != '\n'
  }

  predicate PlainName(name: string) {
    '<' !in name && '>' !in name && '\n' !in name
  }

  lemma MarkersAreTags(name: string)
    requires '<' !in name && '\n' !in name
    ensures Tag(Marker(name)) && Tag(EndMarker(name)) && |EndMarker(name)| == |Marker(name)| + 1
  {
  }

  lemma CharsAt(s: string, t: string, j: int)
    requires OccursAt(s, t, j)
    ensures forall i :: j <= i < j + |t| ==> s[i] == t[i - j]
  {
    assert forall i :: j <= i < j + |t| ==> s[j..j + |t|][i - j] == s[i];
  }

  /** A tag cannot straddle the start of another one. */
  lemma Cut(u: string, v: string, t: string, j: int)
    requires Tag(t) && (v == "" || v[0] == '<') && OccursAt(u + v, t, j) && j < |u|
    ensures OccursAt(u, t, j)
  {
    var s := u + v;
    CharsAt(s, t, j);
    assert v != "" ==> s[|u|] == '<';
    assert j + |t| <= |u|;
    assert s[j..j + |t|] == u[j..j + |t|];
  }

  /** Nor can it straddle a line end. */
  lemma LineCut(u: string, v: string, t: string, j: int)
    requires Tag(t) && OccursAt(u + "\n" + v, t, j)
    ensures OccursAt(u, t, j) || (|u| < j && OccursAt(v, t, j - |u| - 1))
  {
    var s := u + "\n" + v;
    CharsAt(s, t, j);
    assert s[|u|] == '\n';
    assert !(j <= |u| < j + |t|);
    if j + |t| <= |u| {
      assert s[j..j + |t|] == u[j..j + |t|];
    } else {
      assert s[j..j + |t|] == v[j - |u| - 1..j - |u| - 1 + |t|];
    }
  }

  lemma FirstIndex(s: string, t: string, k: nat)
    requires OccursAt(s, t, k) && forall j :: 0 <= j < k ==> !OccursAt(s, t, j)
    ensures Index(s, t) == k
  {
  }

  /** A tag is found where it stands if the text before it does not hold it. */
  lemma TagFound(a: string, t: string, b: string)
    requires Tag(t) && !Contains(a, t)
    ensures Index(a + (t + b), t) == |a|
  {
    var s := a + (t + b);
    assert s[|a|..|a| + |t|] == t;
    forall j | 0 <= j < |a|
      ensures !OccursAt(s, t, j)
    {
      if OccursAt(s, t, j) { Cut(a, t + b, t, j); }
    }
    FirstIndex(s, t, |a|);
  }

  /** The end marker is found after the body it closes if the body does not hold it. */
  lemma EndFound(m: string, body: string, e: string, rest: string)
    requires Tag(m) && Tag(e) && |e| == |m| + 1 && !Contains(body, e)
    ensures Index(m + "\n" + (body + (e + rest)), e) == |m| + 1 + |body|
  {
    var tail := body + (e + rest);
    var s := m + "\n" + tail;
    var k := |m| + 1 + |body|;
    TagFound(body, e, rest);
    assert s[k..k + |e|] == tail[|body|..|body| + |e|];
    forall j | 0 <= j < k
      ensures !OccursAt(s, e, j)
    {
      if OccursAt(s, e, j) { LineCut(m, tail, e, j); }
    }
    FirstIndex(s, e, k);
  }

  // ---------------------------------------------------------------- one injection

  lemma BlockSpelled(name: string, body: string, rest: string)
    ensures Block(name, body) + rest == Marker(name) + "\n" + (body + (EndMarker(name) + rest))
    ensures Block(name, body) + rest == Marker(name) + ("\n" + (body + (EndMarker(name) + rest)))
    ensures |Block(name, body)| == |Marker(name)| + 1 + |body| + |EndMarker(name)|
  {
  }

  lemma NoMarkerBefore(content: string, m: string, k: nat)
    requires m != "" && k <= |content| && forall j :: OccursAt(content, m, j) ==> k <= j
    ensures !Contains(content[..k], m)
  {
    var u := content[..k];
    forall j
      ensures !OccursAt(u, m, j)
    {
      if 0 <= j && j + |m| <= k {
        assert u[j..j + |m|] == content[j..j + |m|];
        assert !OccursAt(content, m, j);
      }
    }
  }

  /** What injection takes out of a file: from the first marker on, either through the first end
      marker, if one follows, or to the end of the line. */
  ghost predicate Removed(gone: string, after: string, e: string) {
    if Contains(gone + after, e) then HasSuffix(gone, e) && Index(gone + after, e) == |gone| - |e|
    else '\n' !in gone && (after == "" || after[0] == '\n')
  }

  /** Injection takes out one stretch that begins with the first marker and ends where the block
      does, puts the new block there, and keeps the text before and after byte for byte. */
  lemma ReplacesLocally(content: string, name: string, body: string)
    returns (before: string, gone: string, after: string)
    requires Contains(content, Marker(name))
    ensures content == before + (gone + after) && Inject(content, name, body) == before + Block(name, body) + after
    ensures !Contains(before, Marker(name)) && ('\n' !in name ==> HasPrefix(gone, Marker(name)))
    ensures Removed(gone, after, EndMarker(name))
  {
    MarkerLines(name);
    InjectSplices(content, name, body);
    before, gone, after := AroundMarker(content, Marker(name), EndMarker(name));
  }

  lemma AroundMarker(content: string, m: string, e: string) returns (before: string, gone: string, after: string)
    requires Contains(content, m) && m != "" && |m| <= |e|
    ensures content == before + (gone + after) && !Contains(before, m) && ('\n' !in m ==> HasPrefix(gone, m))
    ensures before == content[..Index(content, m)] && after == AfterBlock(content[Index(content, m)..], e)
    ensures Removed(gone, after, e)
  {
    var start := Index(content, m);
    NoMarkerBefore(content, m, start);
    before := content[..start];
    gone, after := AfterMarker(content[start..], m, e);
  }

  lemma InjectSplices(content: string, name: string, body: string)
    requires Contains(content, Marker(name))
    ensures var start := Index(content, Marker(name));
      Inject(content, name, body) == content[..start] + Block(name, body)
        + AfterBlock(content[start..], EndMarker(name))
  {
    NameExtracted(name);
  }

  /** Without a marker injection keeps the whole content and adds line ends around the block. */
  lemma AppendsLocally(content: string, name: string, body: string)
    requires !Contains(content, Marker(name))
    ensures Inject(content, name, body)
         == content + (if HasSuffix(content, "\n") then "\n" else "\n\n") + Block(name, body) + "\n"
  {
    assert content + "\n" + "\n" == content + "\n\n";
  }

  lemma AfterMarker(rest: string, m: string, e: string) returns (gone: string, after: string)
    requires HasPrefix(rest, m) && |m| <= |e|
    ensures rest == gone + after && after == AfterBlock(rest, e)
    ensures ('\n' !in m ==> HasPrefix(gone, m)) && Removed(gone, after, e)
  {
    after := AfterBlock(rest, e);
    gone := rest[..|rest| - |after|];
    if Index(rest, e) >= 0 {
      EndsWithMarker(rest, m, e);
    } else {
      EndsWithLine(rest, m);
    }
  }

  lemma EndsWithMarker(rest: string, m: string, e: string)
    requires HasPrefix(rest, m) && |m| <= |e| && Index(rest, e) >= 0
    ensures var gone := rest[..Index(rest, e) + |e|]; HasPrefix(gone, m) && HasSuffix(gone, e)
  {
    var gone := rest[..Index(rest, e) + |e|];
    assert gone[..|m|] == rest[..|m|];
    assert gone[|gone| - |e|..] == rest[Index(rest, e)..Index(rest, e) + |e|];
  }

  lemma EndsWithLine(rest: string, m: string)
    requires HasPrefix(rest, m)
    ensures var i := Index(rest, "\n"); var gone := if i >= 0 then rest[..i] else rest;
      ('\n' !in m ==> HasPrefix(gone, m)) && '\n' !in gone && (i >= 0 ==> rest[i] == '\n')
  {
    var i := Index(rest, "\n");
    var gone := if i >= 0 then rest[..i] else rest;
    forall k | 0 <= k < |gone|
      ensures gone[k] != '\n'
    {
      LineBreakAt(rest, k);
    }
    if i >= 0 {
      CharsAt(rest, "\n", i);
      assert rest[i] == '\n';
    }
    if '\n' !in m {
      assert forall k :: 0 <= k < |m| ==> rest[k] == m[k] && m[k] != '\n';
      assert gone[..|m|] == rest[..|m|];
    }
  }

  lemma LineBreakAt(s: string, k: nat)
    requires k < |s|
    ensures s[k] == '\n' <==> OccursAt(s, "\n", k)
  {
    assert s[k..k + 1] == [s[k]];
  }

  lemma MarkerLines(name: string)
    ensures '\n' !in name ==> '\n' !in Marker(name)
    ensures |EndMarker(name)| == |Marker(name)| + 1
  {
  }

  // ---------------------------------------------------------------- injecting twice

  lemma NoMarkerInLine(content: string, m: string)
    requires Tag(m) && !Contains(content, m)
    ensures !Contains(content + "\n", m)
  {
    assert content + "\n" == content + "\n" + "";
    forall j
      ensures !OccursAt(content + "\n", m, j)
    {
      if OccursAt(content + "\n" + "", m, j) { LineCut(content, "", m, j); }
    }
  }

  /** After an injection the first marker is that of the block just written. */
  lemma InjectShape(content: string, name: string, body: string) returns (before: string, after: string)
    requires '<' !in name && '\n' !in name
    ensures Inject(content, name, body) == before + (Block(name, body) + after)
    ensures !Contains(before, Marker(name))
  {
    MarkersAreTags(name);
    if Contains(content, Marker(name)) {
      var gone;
      before, gone, after := ReplacesLocally(content, name, body);
    } else {
      before, after := LineEnded(content) + "\n", "\n";
      NoMarkerInLine(content, Marker(name));
      NoMarkerInLine(LineEnded(content), Marker(name));
    }
    Regroup(before, Block(name, body), after);
  }

  lemma Regroup(a: string, b: string, c: string)
    ensures a + b + c == a + (b + c)
  {
  }

  /** Injecting into what was just injected: the block in place is cut at the first end marker its
      body holds, or else at its own. */
  lemma InjectAgain(before: string, name: string, body: string, after: string)
    requires '<' !in name && '\n' !in name && !Contains(before, Marker(name))
    ensures var whole := Block(name, body) + after;
      && Index(whole, EndMarker(name)) >= 0
      && Inject(before + whole, name, body)
         == before + Block(name, body) + whole[Index(whole, EndMarker(name)) + |EndMarker(name)|..]
  {
    var m, e, block := Marker(name), EndMarker(name), Block(name, body);
    var whole := block + after;
    MarkersAreTags(name);
    NameExtracted(name);
    BlockSpelled(name, body, after);
    TagFound(before, m, whole[|m|..]);
    assert whole == m + whole[|m|..];
    assert (before + whole)[|before|..] == whole && (before + whole)[..|before|] == before;
    EndInBlock(name, body, after);
  }

  lemma EndInBlock(name: string, body: string, after: string)
    ensures var k := |Marker(name)| + 1 + |body|;
      && OccursAt(Block(name, body) + after, EndMarker(name), k) && k + |EndMarker(name)| == |Block(name, body)|
  {
    var m, e, s := Marker(name), EndMarker(name), Block(name, body) + after;
    var k := |m| + 1 + |body|;
    BlockSpelled(name, body, after);
    EndAfter(m, body, e, after);
  }

  lemma EndAfter(m: string, body: string, e: string, after: string)
    ensures OccursAt(m + "\n" + (body + (e + after)), e, |m| + 1 + |body|)
  {
    var s, k := m + "\n" + (body + (e + after)), |m| + 1 + |body|;
    assert s[k..k + |e|] == e;
  }

  /** An end marker in the body is met before the block's own. */
  lemma EndInBody(m: string, body: string, e: string, after: string)
    requires Contains(body, e)
    ensures var s := m + "\n" + (body + (e + after)); 0 <= Index(s, e) && Index(s, e) + |e| <= |m| + 1 + |body|
  {
    var s := m + "\n" + (body + (e + after));
    var j :| OccursAt(body, e, j);
    var k := |m| + 1 + j;
    assert s[k..k + |e|] == body[j..j + |e|];
    assert OccursAt(s, e, k);
  }

  /** Injecting twice is injecting once exactly when the body does not hold the end marker of its
      own block, whatever the content was. */
  lemma InjectTwice(content: string, name: string, body: string)
    requires '<' !in name && '\n' !in name
    ensures Inject(Inject(content, name, body), name, body) == Inject(content, name, body)
            <==> !Contains(body, EndMarker(name))
  {
    var before, after := InjectShape(content, name, body);
    var m, e, block := Marker(name), EndMarker(name), Block(name, body);
    var whole := block + after;
    InjectAgain(before, name, body, after);
    BlockSpelled(name, body, after);
    MarkersAreTags(name);
    var k := Index(whole, e);
    if Contains(body, e) {
      EndInBody(m, body, e, after);
      assert k + |e| < |block|;
      assert |before + block + whole[k + |e|..]| > |before + whole|;
    } else {
      EndFound(m, body, e, after);
      assert whole[|block|..] == after;
      Regroup(before, block, after);
    }
  }

  /** An agent, named after its title, whose trigger is its own end marker. */
  const QUOTING: Agent := Agent("x", "X", EndMarker("x"), Some(Config(NewPhase, "", "")))

  /** Its block, injected a second time, is not what the first injection left. */
  lemma QuotingIsNotIdempotent(content: string)
    ensures QUOTING.name == Slug.Slug(QUOTING.title)
    ensures var body := Body(QUOTING, QUOTING.sdd.value);
      Inject(Inject(content, "x", body), "x", body) != Inject(content, "x", body)
  {
    SlugOfX();
    QuotedIn(Lead(QUOTING, QUOTING.sdd.value), QUOTING.trigger);
    InjectTwice(content, "x", Body(QUOTING, QUOTING.sdd.value));
  }

  lemma SlugOfX()
    ensures Slug.Slug("X") == "x"
  {
  }

  lemma QuotedIn(before: string, quoted: string)
    ensures OccursAt(before + quoted + "\n", quoted, |before|)
  {
    assert (before + quoted + "\n")[|before|..|before| + |quoted|] == quoted;
  }

  // ---------------------------------------------------------------- the file as a document

  /** Text, then a block. */
  datatype Item = Item(text: string, name: string, body: string)

  datatype Doc = Doc(items: seq<Item>, tail: string)

  function RenderItems(items: seq<Item>, tail: string): string {
    if items == [] then tail
    else items[0].text + Block(items[0].name, items[0].body) + RenderItems(items[1..], tail)
  }

  function Render(d: Doc): string {
    RenderItems(d.items, d.tail)
  }

  /** No marker of any agent begins in the text. */
  ghost predicate Quiet(t: string) {
    !Contains(t, OPEN) && !Contains(t, CLOSE)
  }

  ghost predicate WellFormed(d: Doc) {
    Quiet(d.tail) && ItemsWellFormed(d.items)
  }

  ghost predicate ItemsWellFormed(items: seq<Item>) {
    forall i :: 0 <= i < |items| ==> Quiet(items[i].text) && Quiet(items[i].body) && PlainName(items[i].name)
  }

  predicate Has(items: seq<Item>, name: string) {
    exists i :: 0 <= i < |items| && items[i].name == name
  }

  /** The first block of the agent gets the new body. */
  function Replaced(items: seq<Item>, name: string, body: string): seq<Item> {
    if items == [] then []
    else if items[0].name == name then [items[0].(body := body)] + items[1..]
    else [items[0]] + Replaced(items[1..], name, body)
  }

  /** What injection does, seen on documents. */
  function Upsert(d: Doc, name: string, body: string): Doc {
    if Has(d.items, name) then Doc(Replaced(d.items, name, body), d.tail)
    else Doc(d.items + [Item(d.tail + (if HasSuffix(Render(d), "\n") then "\n" else "\n\n"), name, body)], "\n")
  }

  lemma QuietHoldsNone(t: string, name: string)
    requires Quiet(t)
    ensures !Contains(t, Marker(name)) && !Contains(t, EndMarker(name))
  {
    NoLonger(t, OPEN, name + TAIL);
    NoLonger(t, CLOSE, name + TAIL);
    assert Marker(name) == OPEN + (name + TAIL) && EndMarker(name) == CLOSE + (name + TAIL);
  }

  lemma NoLonger(t: string, p: string, q: string)
    requires !Contains(t, p)
    ensures !Contains(t, p + q)
  {
    forall j
      ensures !OccursAt(t, p + q, j)
    {
      if 0 <= j && j + |p + q| <= |t| {
        assert t[j..j + |p + q|][..|p|] == t[j..j + |p|] && (p + q)[..|p|] == p;
        assert !OccursAt(t, p, j);
      }
    }
  }

  lemma RightPart(u: string, v: string, t: string, j: int)
    requires |u| <= j
    ensures OccursAt(u + v, t, j) <==> OccursAt(v, t, j - |u|)
  {
    if j + |t| <= |u| + |v| { assert (u + v)[j..j + |t|] == v[j - |u|..j - |u| + |t|]; }
  }

  /** The marker of one agent is not how the marker of another begins. */
  lemma NamesDiffer(a: string, b: string, x: string)
    requires PlainName(a) && PlainName(b) && HasPrefix(b + TAIL + "\n" + x, a + TAIL)
    ensures a == b
  {
    var s, t := b + TAIL + "\n" + x, a + TAIL;
    assert forall i :: 0 <= i < |t| ==> s[i] == t[i];
    assert t[|a| + 3] == '>' && s[|b| + 3] == '>';
    assert |a| == |b|;
    assert a == t[..|a|] && b == s[..|b|];
  }

  lemma OtherMarker(name: string, other: string, x: string)
    requires PlainName(name) && PlainName(other) && name != other
    ensures !OccursAt(Marker(other) + "\n" + x, Marker(name), 0)
  {
    var s, m := Marker(other) + "\n" + x, Marker(name);
    if OccursAt(s, m, 0) {
      assert s[|OPEN|..] == other + TAIL + "\n" + x && m[|OPEN|..] == name + TAIL;
      assert s[0..0 + |m|][|OPEN|..] == s[|OPEN|..][..|m| - |OPEN|];
      NamesDiffer(name, other, x);
    }
  }

  lemma NotAtEnd(name: string, other: string, x: string)
    ensures !OccursAt(EndMarker(other) + x, Marker(name), 0)
  {
    var s, m := EndMarker(other) + x, Marker(name);
    assert s[5] == '/' && m[5] == 'g';
    if 0 + |m| <= |s| { assert s[0..0 + |m|][5] == s[5]; }
  }

  /** A tag found in the first text of two starts where that one does, if it is a tag itself. */
  lemma StartsTag(u: string, x: string, t: string, j: int)
    requires Tag(u) && Tag(t) && OccursAt(u + x, t, j) && j < |u|
    ensures j == 0
  {
    CharsAt(u + x, t, j);
    assert (u + x)[j] == u[j];
  }

  lemma StartsLine(u: string, tail: string, t: string, j: int)
    requires Tag(u) && Tag(t) && OccursAt(u + "\n" + tail, t, j) && j < |u|
    ensures j == 0
  {
    assert u + "\n" + tail == u + ("\n" + tail);
    StartsTag(u, "\n" + tail, t, j);
  }

  /** A block of another agent hides no marker of this one. */
  lemma SkipsBlock(name: string, other: string, body: string, k: string, j: int)
    requires PlainName(name) && PlainName(other) && name != other && Quiet(body)
    requires OccursAt(Block(other, body) + k, Marker(name), j)
    ensures j >= |Block(other, body)|
  {
    var m, e, t := Marker(other), EndMarker(other), Marker(name);
    var tail := body + (e + k);
    MarkersAreTags(other);
    MarkersAreTags(name);
    BlockSpelled(other, body, k);
    OtherMarker(name, other, tail);
    NotAtEnd(name, other, k);
    QuietHoldsNone(body, name);
    if j < |Block(other, body)| {
      SkipsParts(m, body, e, k, t, j);
    }
  }

  lemma SkipsParts(m: string, body: string, e: string, k: string, t: string, j: int)
    requires Tag(m) && Tag(e) && Tag(t) && !Contains(body, t)
    requires !OccursAt(m + "\n" + (body + (e + k)), t, 0) && !OccursAt(e + k, t, 0)
    ensures OccursAt(m + "\n" + (body + (e + k)), t, j) ==> j >= |m| + 1 + |body| + |e|
  {
    var tail := body + (e + k);
    if OccursAt(m + "\n" + tail, t, j) {
      LineCut(m, tail, t, j);
      if j < |m| {
        StartsLine(m, tail, t, j);
      } else {
        SkipsBody(body, e, k, t, j - |m| - 1);
      }
    }
  }

  lemma SkipsBody(body: string, e: string, k: string, t: string, j: int)
    requires Tag(e) && Tag(t) && !Contains(body, t) && !OccursAt(e + k, t, 0)
    ensures OccursAt(body + (e + k), t, j) ==> j >= |body| + |e|
  {
    if OccursAt(body + (e + k), t, j) {
      if j < |body| {
        Cut(body, e + k, t, j);
      } else {
        RightPart(body, e + k, t, j);
        if j - |body| < |e| { StartsTag(e, k, t, j - |body|); }
      }
    }
  }

  /** Searching past an item of another agent. */
  lemma SkipsItem(it: Item, k: string, name: string)
    requires PlainName(name) && PlainName(it.name) && name != it.name && Quiet(it.text) && Quiet(it.body)
    ensures var u := it.text + Block(it.name, it.body); var m := Marker(name);
      && Index(u + k, m) == (if Index(k, m) < 0 then -1 else |u| + Index(k, m))
  {
    var block, m := Block(it.name, it.body), Marker(name);
    var u := it.text + block;
    var s := u + k;
    assert s == it.text + (block + k);
    BlockSpelled(it.name, it.body, k);
    MarkersAreTags(name);
    MarkersAreTags(it.name);
    QuietHoldsNone(it.text, name);
    forall j
      ensures OccursAt(s, m, j) <==> |u| <= j && OccursAt(k, m, j - |u|)
    {
      if |u| <= j { RightPart(u, k, m, j); }
      if OccursAt(s, m, j) && j < |u| {
        if j < |it.text| {
          Cut(it.text, block + k, m, j);
        } else {
          RightPart(it.text, block + k, m, j);
          SkipsBlock(name, it.name, it.body, k, j - |it.text|);
        }
      }
    }
    Shifted(u, k, m);
  }

  lemma Shifted(u: string, k: string, m: string)
    requires forall j :: OccursAt(u + k, m, j) <==> |u| <= j && OccursAt(k, m, j - |u|)
    ensures Index(u + k, m) == if Index(k, m) < 0 then -1 else |u| + Index(k, m)
  {
    var i := Index(k, m);
    assert i >= 0 ==> OccursAt(u + k, m, |u| + i);
    var h := Index(u + k, m);
    assert h >= 0 ==> OccursAt(k, m, h - |u|);
  }

  // ---------------------------------------------------------------- injection is an update of the document

  lemma {:induction false} NoBlockNoMarker(items: seq<Item>, tail: string, name: string)
    requires ItemsWellFormed(items) && Quiet(tail) && PlainName(name) && !Has(items, name)
    ensures Index(RenderItems(items, tail), Marker(name)) == -1
  {
    if items == [] {
      QuietHoldsNone(tail, name);
    } else {
      var it := items[0];
      var k := RenderItems(items[1..], tail);
      NoBlockNoMarker(items[1..], tail, name);
      SkipsItem(it, k, name);
    }
  }

  lemma MarkerHere(text: string, name: string, old_: string, k: string)
    requires PlainName(name) && Quiet(text)
    ensures Index(text + Block(name, old_) + k, Marker(name)) == |text|
  {
    var m, whole := Marker(name), Block(name, old_) + k;
    QuietHoldsNone(text, name);
    MarkersAreTags(name);
    BlockSpelled(name, old_, k);
    assert whole == m + whole[|m|..];
    TagFound(text, m, whole[|m|..]);
    Regroup(text, Block(name, old_), k);
  }

  /** The old block is taken out whole, whatever is put in its place. */
  lemma SpliceOut(before: string, name: string, old_: string, k: string, block: string)
    requires PlainName(name) && !Contains(old_, EndMarker(name))
    ensures Spliced(before + Block(name, old_) + k, |before|, EndMarker(name), block) == before + block + k
  {
    var m, e := Marker(name), EndMarker(name);
    var whole := Block(name, old_) + k;
    MarkersAreTags(name);
    BlockSpelled(name, old_, k);
    Regroup(before, Block(name, old_), k);
    assert (before + whole)[|before|..] == whole && (before + whole)[..|before|] == before;
    EndFound(m, old_, e, k);
    assert whole[|Block(name, old_)|..] == k;
  }

  /** How much text comes before the first block of the agent. */
  function StartOf(items: seq<Item>, name: string): nat
    requires Has(items, name)
  {
    if items[0].name == name then |items[0].text|
    else
      HasLater(items, name);
      |items[0].text + Block(items[0].name, items[0].body)| + StartOf(items[1..], name)
  }

  lemma HasLater(items: seq<Item>, name: string)
    requires Has(items, name) && items[0].name != name
    ensures Has(items[1..], name)
  {
    var i :| 0 <= i < |items| && items[i].name == name;
    assert items[1..][i - 1] == items[i];
  }

  lemma {:induction false} MarkerAtStart(items: seq<Item>, tail: string, name: string)
    requires ItemsWellFormed(items) && PlainName(name) && Has(items, name)
    ensures Index(RenderItems(items, tail), Marker(name)) == StartOf(items, name)
  {
    var it := items[0];
    var k := RenderItems(items[1..], tail);
    if it.name == name {
      MarkerHere(it.text, name, it.body, k);
    } else {
      HasLater(items, name);
      MarkerAtStart(items[1..], tail, name);
      SkipsItem(it, k, name);
    }
  }

  /** The text around the first block of the agent, and that block's body. */
  lemma {:induction false} AroundBlock(items: seq<Item>, tail: string, name: string, body: string)
    returns (before: string, old_: string, after: string)
    requires ItemsWellFormed(items) && Has(items, name)
    ensures Quiet(old_) && |before| == StartOf(items, name)
    ensures RenderItems(items, tail) == before + Block(name, old_) + after
    ensures RenderItems(Replaced(items, name, body), tail) == before + Block(name, body) + after
  {
    var it := items[0];
    if it.name == name {
      before, old_, after := it.text, it.body, RenderItems(items[1..], tail);
      assert Replaced(items, name, body)[1..] == items[1..];
    } else {
      HasLater(items, name);
      before, old_, after := AroundBlock(items[1..], tail, name, body);
      var u := it.text + Block(it.name, it.body);
      Shift3(u, before, Block(name, old_), after);
      Shift3(u, before, Block(name, body), after);
      before := u + before;
      assert Replaced(items, name, body)[1..] == Replaced(items[1..], name, body);
    }
  }

  lemma Shift3(u: string, a: string, b: string, c: string)
    ensures u + (a + b + c) == u + a + b + c
  {
  }

  lemma SplicedAtStart(items: seq<Item>, tail: string, name: string, body: string)
    requires ItemsWellFormed(items) && PlainName(name) && Has(items, name)
    ensures StartOf(items, name) <= |RenderItems(items, tail)|
    ensures Spliced(RenderItems(items, tail), StartOf(items, name), EndMarker(name), Block(name, body))
         == RenderItems(Replaced(items, name, body), tail)
  {
    var before, old_, after := AroundBlock(items, tail, name, body);
    QuietHoldsNone(old_, name);
    SpliceOut(before, name, old_, after, Block(name, body));
  }

  lemma {:induction false} RenderAppend(items: seq<Item>, tail: string, gap: string, name: string, body: string,
                                        end: string)
    ensures RenderItems(items + [Item(tail + gap, name, body)], end)
            == RenderItems(items, tail) + gap + Block(name, body) + end
  {
    var last := Item(tail + gap, name, body);
    var block := Block(name, body);
    if items == [] {
      assert [last][1..] == [];
    } else {
      var it := items[0];
      RenderAppend(items[1..], tail, gap, name, body, end);
      assert (items + [last])[1..] == items[1..] + [last];
      var k := RenderItems(items[1..], tail);
      FourParts(it.text, Block(it.name, it.body), k, gap, block, end);
    }
  }

  lemma FourParts(a: string, b: string, k: string, gap: string, block: string, end: string)
    ensures a + b + (k + gap + block + end) == a + b + k + gap + block + end
  {
  }

  /** Injection into a file of managed blocks changes the agent's own block, or appends it, and
      nothing else: all other text and every other agent's block come out as they went in. */
  lemma InjectIsUpsert(d: Doc, name: string, body: string)
    requires WellFormed(d) && PlainName(name)
    ensures Inject(Render(d), name, body) == Render(Upsert(d, name, body))
  {
    if Has(d.items, name) {
      MarkerAtStart(d.items, d.tail, name);
      SplicedAtStart(d.items, d.tail, name, body);
      NameExtracted(name);
    } else {
      NoBlockNoMarker(d.items, d.tail, name);
      var s := Render(d);
      var gap := if HasSuffix(s, "\n") then "\n" else "\n\n";
      RenderAppend(d.items, d.tail, gap, name, body, "\n");
      assert LineEnded(s) + "\n" == s + gap;
    }
  }

  /** The blocks and texts of the other agents. */
  function Others(items: seq<Item>, name: string): seq<Item> {
    if items == [] then []
    else (if items[0].name == name then [] else [items[0]]) + Others(items[1..], name)
  }

  lemma {:induction false} OthersStay(items: seq<Item>, name: string, body: string)
    ensures Others(Replaced(items, name, body), name) == Others(items, name)
    ensures |Replaced(items, name, body)| == |items|
    ensures forall i :: 0 <= i < |items| ==> Replaced(items, name, body)[i].text == items[i].text
    ensures forall i :: 0 <= i < |items| && items[i].name != name ==> Replaced(items, name, body)[i] == items[i]
  {
    if items != [] {
      OthersStay(items[1..], name, body);
      assert forall i :: 1 <= i < |items| ==> items[i] == items[1..][i - 1];
      assert Replaced(items, name, body)[1..]
             == if items[0].name == name then items[1..] else Replaced(items[1..], name, body);
    }
  }

  lemma QuietGap(t: string, gap: string)
    requires Quiet(t) && (gap == "\n" || gap == "\n\n")
    ensures Quiet(t + gap)
  {
    assert Tag(OPEN) && Tag(CLOSE);
    NoMarkerInLine(t, OPEN);
    NoMarkerInLine(t, CLOSE);
    NoMarkerInLine(t + "\n", OPEN);
    NoMarkerInLine(t + "\n", CLOSE);
    assert t + "\n" + "\n" == t + "\n\n";
  }

  /** A file of managed blocks stays one, so any number of injections act on the document. */
  lemma UpsertKeepsForm(d: Doc, name: string, body: string)
    requires WellFormed(d) && PlainName(name) && Quiet(body)
    ensures WellFormed(Upsert(d, name, body)) && Has(Upsert(d, name, body).items, name)
  {
    if Has(d.items, name) {
      ReplacedWellFormed(d.items, name, body);
    } else {
      var gap := if HasSuffix(Render(d), "\n") then "\n" else "\n\n";
      QuietGap(d.tail, gap);
      var items := Upsert(d, name, body).items;
      assert items[|d.items|].name == name;
    }
  }

  lemma {:induction false} ReplacedWellFormed(items: seq<Item>, name: string, body: string)
    requires ItemsWellFormed(items) && Quiet(body)
    ensures ItemsWellFormed(Replaced(items, name, body))
            && (Has(items, name) ==> Has(Replaced(items, name, body), name))
  {
    if items != [] {
      ReplacedWellFormed(items[1..], name, body);
      var r := Replaced(items, name, body);
      assert forall i :: 1 <= i < |items| ==> items[i] == items[1..][i - 1];
      assert forall i :: 1 <= i < |r| ==> r[i] == r[1..][i - 1];
      assert items[0].name == name ==> r[0].name == name;
      if Has(items, name) && items[0].name != name {
        var i :| 0 <= i < |items| && items[i].name == name;
        assert items[1..][i - 1].name == name;
        var k :| 0 <= k < |r[1..]| && r[1..][k].name == name;
        assert r[k + 1].name == name;
      }
    }
  }

  // ---------------------------------------------------------------- the agent and its file

  datatype Mode = Standalone | PhaseSupport | NewPhase | OtherMode

  datatype Config = Config(mode: Mode, targetPhase: string, phaseName: string)

  datatype Agent = Agent(name: string, title: string, trigger: string, sdd: Option<Config>)

  /** The text between the markers, by integration mode: a lead, and the trigger. */
  function Body(agent: Agent, cfg: Config): string {
    Lead(agent, cfg) + agent.trigger + "\n"
  }

  function Lead(agent: Agent, cfg: Config): string {
    match cfg.mode
    case PhaseSupport =>
      "## Custom Agent: " + agent.title + " (Phase Support)\n\n"
      + "This skill provides additional support for the `sdd-" + cfg.targetPhase + "` phase.\n"
      + "When working on tasks related to `" + cfg.targetPhase + "`, load the `" + agent.name
      + "` skill for enhanced guidance.\n\n"
      + "Trigger phrases: "
    case NewPhase =>
      var phase := if cfg.phaseName == "" then agent.name else cfg.phaseName;
      "## Custom Agent: " + agent.title + " (New SDD Phase)\n\n"
      + "This skill adds a new phase `" + phase + "` to the SDD dependency graph.\n"
      + "Load the `" + agent.name + "` skill when the orchestrator launches you for the `" + phase + "` phase.\n\n"
      + "Trigger phrases: "
    case _ => "## Custom Agent: " + agent.title + "\n\nTrigger: "
  }

  predicate Injects(agent: Option<Agent>) {
    agent.Some? && agent.value.sdd.Some? && agent.value.sdd.value.mode != Standalone
  }

  /** The system prompt file: absent, or its text. */
  class PromptFile {
    var content: Option<string>

    constructor (content: Option<string>)
      ensures this.content == content
    {
      this.content := content;
    }

    /** InjectSDDReference. */
    method InjectReference(agent: Option<Agent>) returns (ok: bool)
      modifies this
      ensures ok == (!Injects(agent) || old(content).Some?)
      ensures !Injects(agent) || old(content).None? ==> content == old(content)
      ensures Injects(agent) && old(content).Some? ==>
                content == Some(Inject(old(content).value, agent.value.name, Body(agent.value, agent.value.sdd.value)))
    {
      if agent.None? || agent.value.sdd.None? || agent.value.sdd.value.mode == Standalone { return true; }
      if content.None? { return false; }
      var data := content.value;
      var name := agent.value.name;
      var body := Body(agent.value, agent.value.sdd.value);
      if Index(data, Marker(name)) >= 0 {
        data := ReplaceBlock(data, Marker(name), Block(name, body));
      } else {
        if !HasSuffix(data, "\n") {
          data := data + "\n";
        }
        data := data + ("\n" + Block(name, body) + "\n");
        LineThenBlock(content.value, name, body);
      }
      content := Some(data);
      ok := true;
    }

    /** Installing an agent a second time leaves the file as the first time left it, as long as its
        body does not hold its own end marker. */
    method InjectTwiceInto(agent: Option<Agent>) returns (first: Option<string>)
      requires Injects(agent) ==>
                 && '<' !in agent.value.name && '\n' !in agent.value.name
                 && !Contains(Body(agent.value, agent.value.sdd.value), EndMarker(agent.value.name))
      modifies this
      ensures content == first
    {
      var ok := InjectReference(agent);
      first := content;
      if Injects(agent) && old(content).Some? {
        InjectTwice(old(content).value, agent.value.name, Body(agent.value, agent.value.sdd.value));
      }
      ok := InjectReference(agent);
    }
  }

  lemma LineThenBlock(content: string, name: string, body: string)
    ensures LineEnded(content) + ("\n" + Block(name, body) + "\n")
            == LineEnded(content) + "\n" + Block(name, body) + "\n"
  {
  }

  /** Names made from titles are plain, so the properties of injection hold for every parsed agent. */
  lemma SlugsArePlain(title: string)
    ensures PlainName(Slug.Slug(title))
  {
    Slug.SlugShape(title);
  }
}
