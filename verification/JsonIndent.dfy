/** json.Indent as the record's save uses it: one pass over the compact text that inserts line
    breaks, and the proof that the text it produces denotes the same tree. */
module JsonIndent {
  import opened Text
  import opened JsonLex
  import opened Json
  import opened JsonRoundTrip

  /** The scanner behind json.Indent refuses deeper nesting; the token decoder has no such limit. */
  const MAX_NESTING: nat := 10000

  datatype Mode = Outside | InString | Escaped

  function Prepend(p: string, o: Option<string>): Option<string> {
    match o
    case None => None
    case Some(s) => Some(p + s)
  }

  /** The pass over what is left of the text: depth is the current indentation, and need holds
      just after an opening bracket, whose line break waits to see whether it closes at once. */
  function IndentFrom(src: string, depth: nat, need: bool, mode: Mode): Option<string>
    decreases |src|
  {
    if src == "" then Some("")
    else
      var c, rest := src[0], src[1..];
      match mode
      case InString =>
        Prepend([c], IndentFrom(rest, depth, need,
                                if c == '"' then Outside else if c == '\\' then Escaped else InString))
      case Escaped => Prepend([c], IndentFrom(rest, depth, need, InString))
      case Outside =>
        if IsWs(c) then IndentFrom(rest, depth, need, Outside)
        else if need && !IsCloser(c) then Prepend(Newline(depth + 1), IndentMark(c, rest, depth + 1, false))
        else IndentMark(c, rest, depth, need)
  }

  predicate IsCloser(c: char) { c == '}' || c == ']' }

  /** One character of punctuation or the start of a scalar, its pending line break settled. */
  function IndentMark(c: char, rest: string, depth: nat, need: bool): Option<string>
    decreases |rest| + 1, 0
  {
    if c == '{' || c == '[' then
      if depth + 1 > MAX_NESTING then None else Prepend([c], IndentFrom(rest, depth, true, Outside))
    else if c == ',' then Prepend([c] + Newline(depth), IndentFrom(rest, depth, need, Outside))
    else if c == ':' then Prepend([c] + " ", IndentFrom(rest, depth, need, Outside))
    else if IsCloser(c) then
      if need then Prepend([c], IndentFrom(rest, depth, false, Outside))
      else if depth == 0 then None
      else Prepend(Newline(depth - 1) + [c], IndentFrom(rest, depth - 1, false, Outside))
    else Prepend([c], IndentFrom(rest, depth, need, if c == '"' then InString else Outside))
  }

  /** json.Indent with an empty prefix and two spaces: it fails on text that is not one JSON
      value, and on text nested too deeply. */
  function Indent(src: string): Option<string> {
    if Decode(src).None? then None else IndentFrom(src, 0, false, Outside)
  }

  // ---------------------------------------------------------------- nesting

  function Height(v: Value): nat {
    match v
    case Object(ms) => 1 + HeightMembers(ms)
    case Array(items) => 1 + HeightItems(items)
    case _ => 0
  }

  function Max(a: nat, b: nat): nat { if a < b then b else a }

  function HeightMembers(ms: seq<Member>): nat {
    if ms == [] then 0 else Max(Height(ms[0].value), HeightMembers(ms[1..]))
  }

  function HeightItems(items: seq<Value>): nat {
    if items == [] then 0 else Max(Height(items[0]), HeightItems(items[1..]))
  }

  // ---------------------------------------------------------------- the pass, piece by piece

  lemma PrependTwice(p: string, q: string, o: Option<string>)
    ensures Prepend(p, Prepend(q, o)) == Prepend(p + q, o)
  {
    if o.Some? {
      assert p + (q + o.value) == p + q + o.value;
    }
  }

  /** A waiting line break is written before anything but a closing bracket. */
  lemma Settles(s: string, depth: nat)
    requires s != "" && !IsWs(s[0]) && !IsCloser(s[0])
    ensures IndentFrom(s, depth, true, Outside) == Prepend(Newline(depth + 1), IndentFrom(s, depth + 1, false, Outside))
  {
  }

  predicate IsWordChar(c: char) {
    !IsWs(c) && !IsCloser(c) && c != '{' && c != '[' && c != ',' && c != ':' && c != '"'
  }

  lemma {:induction false} CopiesWord(word: string, depth: nat, k: string)
    requires forall i :: 0 <= i < |word| ==> IsWordChar(word[i])
    ensures IndentFrom(word + k, depth, false, Outside) == Prepend(word, IndentFrom(k, depth, false, Outside))
    decreases |word|
  {
    var after := IndentFrom(k, depth, false, Outside);
    if word == "" {
      assert word + k == k;
      assert after.Some? ==> "" + after.value == after.value;
    } else {
      assert (word + k)[1..] == word[1..] + k;
      CopiesWord(word[1..], depth, k);
      PrependTwice([word[0]], word[1..], after);
      assert [word[0]] + word[1..] == word;
    }
  }

  lemma {:induction false} CopiesInString(word: string, depth: nat, k: string)
    requires forall i :: 0 <= i < |word| ==> word[i] != '"' && word[i] != '\\'
    ensures IndentFrom(word + k, depth, false, InString) == Prepend(word, IndentFrom(k, depth, false, InString))
    decreases |word|
  {
    var after := IndentFrom(k, depth, false, InString);
    if word == "" {
      assert word + k == k;
      assert after.Some? ==> "" + after.value == after.value;
    } else {
      assert (word + k)[1..] == word[1..] + k;
      CopiesInString(word[1..], depth, k);
      PrependTwice([word[0]], word[1..], after);
      assert [word[0]] + word[1..] == word;
    }
  }

  lemma CopiesEscape(e: char, depth: nat, k: string)
    ensures IndentFrom(['\\', e] + k, depth, false, InString)
            == Prepend(['\\', e], IndentFrom(k, depth, false, InString))
  {
    var after := IndentFrom(k, depth, false, InString);
    HeadTail('\\', [e] + k);
    HeadTail(e, k);
    assert ['\\', e] + k == ['\\'] + ([e] + k);
    assert IndentFrom([e] + k, depth, false, Escaped) == Prepend([e], after);
    PrependTwice(['\\'], [e], after);
    assert ['\\'] + [e] == ['\\', e];
  }

  lemma CopiesUnit(u: Unit, depth: nat, k: string)
    requires ValidUnit(u)
    ensures IndentFrom(Spell(u) + k, depth, false, InString) == Prepend(Spell(u), IndentFrom(k, depth, false, InString))
  {
    match u
    case Plain(c) => CopiesInString([c], depth, k);
    case Short(e) => CopiesEscape(e, depth, k);
    case Hex(d) =>
      CopiesEscape('u', depth, d + k);
      CopiesInString(d, depth, k);
      PrependTwice(['\\', 'u'], d, IndentFrom(k, depth, false, InString));
      assert Spell(u) + k == ['\\', 'u'] + (d + k);
  }

  lemma {:induction false} CopiesUnits(us: seq<Unit>, depth: nat, k: string)
    requires ValidUnits(us)
    ensures IndentFrom(SpellUnits(us) + "\"" + k, depth, false, InString)
         == Prepend(SpellUnits(us) + "\"", IndentFrom(k, depth, false, Outside))
    decreases |us|
  {
    var after := IndentFrom(k, depth, false, Outside);
    if us == [] {
      assert SpellUnits(us) + "\"" + k == ['"'] + k;
      HeadTail('"', k);
    } else {
      var tail := SpellUnits(us[1..]) + "\"";
      CopiesUnits(us[1..], depth, k);
      CopiesUnit(us[0], depth, tail + k);
      PrependTwice(Spell(us[0]), tail, after);
      assert SpellUnits(us) + "\"" == Spell(us[0]) + tail;
      assert SpellUnits(us) + "\"" + k == Spell(us[0]) + (tail + k);
    }
  }

  lemma CopiesString(us: seq<Unit>, depth: nat, k: string)
    requires ValidUnits(us)
    ensures IndentFrom(['"'] + (SpellUnits(us) + "\"" + k), depth, false, Outside)
         == Prepend(['"'] + (SpellUnits(us) + "\""), IndentFrom(k, depth, false, Outside))
  {
    HeadTail('"', SpellUnits(us) + "\"" + k);
    CopiesUnits(us, depth, k);
    PrependTwice(['"'], SpellUnits(us) + "\"", IndentFrom(k, depth, false, Outside));
  }

  lemma NumIsWord(n: Num)
    requires ValidNum(n)
    ensures forall i :: 0 <= i < |SpellNum(n)| ==> IsWordChar(SpellNum(n)[i])
  {
    assert forall c :: IsDigit(c) ==> IsWordChar(c);
  }

  lemma CopiesScalar(sc: Scalar, depth: nat, k: string)
    requires ValidScalar(sc)
    ensures IndentFrom(SpellScalar(sc) + k, depth, false, Outside)
         == Prepend(SpellScalar(sc), IndentFrom(k, depth, false, Outside))
  {
    match sc
    case SStr(us) =>
      CopiesString(us, depth, k);
      ConsAssoc('"', SpellUnits(us) + "\"", k);
    case SNum(n) =>
      NumIsWord(n);
      CopiesWord(SpellNum(n), depth, k);
    case _ => CopiesWord(SpellScalar(sc), depth, k);
  }

  // ---------------------------------------------------------------- the pass over a compact tree

  /** The text of d before what the pass makes of the rest. */
  function Then(d: Doc, o: Option<string>): Option<string> {
    match o
    case None => None
    case Some(s) => Some(Emit(d, s))
  }

  /** Over a tree's compact text the pass writes its indented layout, unless the tree nests
      beyond the limit, in which case it fails. */
  lemma {:induction false} Indents(v: Value, depth: nat, base: nat, k: string)
    requires WellFormed(v) && depth <= MAX_NESTING
    ensures IndentFrom(Emit(Layout(v, base, false), k), depth, false, Outside)
         == if depth + Height(v) <= MAX_NESTING then Then(Layout(v, depth, true), IndentFrom(k, depth, false, Outside))
           else None
    decreases v, 0
  {
    match v
    case Object(ms) =>
      HeadTail('{', if ms == [] then "" + (['}'] + k) else EmitMembers(LayoutMembers(ms, base, false), k));
      if ms == [] { EmptyIndents('{', '}', depth, k); } else { ObjectIndents(ms, depth, base, k); }
    case Array(items) =>
      HeadTail('[', if items == [] then "" + ([']'] + k) else EmitItems(LayoutItems(items, base, false), k));
      if items == [] { EmptyIndents('[', ']', depth, k); } else { ArrayIndents(items, depth, base, k); }
    case _ =>
      LayoutDenotes(v, base, false);
      CopiesScalar(ScalarOfValue(v), depth, k);
  }

  lemma EmptyIndents(open: char, close: char, depth: nat, k: string)
    requires (open == '{' || open == '[') && IsCloser(close)
    ensures IndentFrom([open] + ("" + ([close] + k)), depth, false, Outside)
         == if depth + 1 <= MAX_NESTING then Prepend([open] + ("" + [close]), IndentFrom(k, depth, false, Outside))
           else None
    ensures forall s: string :: [open] + ("" + ([close] + s)) == [open] + ("" + [close]) + s
  {
    assert "" + ([close] + k) == [close] + k;
    HeadTail(open, [close] + k);
    HeadTail(close, k);
    var after := IndentFrom(k, depth, false, Outside);
    assert IndentFrom([close] + k, depth, true, Outside) == Prepend([close], after);
    PrependTwice([open], [close], after);
    assert [open] + ("" + [close]) == [open] + [close];
    forall s: string
      ensures [open] + ("" + ([close] + s)) == [open] + ("" + [close]) + s
    {
      assert [open] + ("" + ([close] + s)) == [open] + [close] + s;
    }
  }

  lemma {:induction false} ObjectIndents(ms: seq<Member>, depth: nat, base: nat, k: string)
    requires ms != [] && WellFormedMembers(ms)
    ensures IndentFrom(['{'] + EmitMembers(LayoutMembers(ms, base, false), k), depth, false, Outside)
         == if depth + 1 + HeightMembers(ms) <= MAX_NESTING
            then Then(DObject(LayoutMembers(ms, depth, true), ""), IndentFrom(k, depth, false, Outside)) else None
    decreases ms, 2
  {
    var body := EmitMembers(LayoutMembers(ms, base, false), k);
    HeadTail('{', body);
    assert body[0] == '"';
    Settles(body, depth);
    if depth + 1 <= MAX_NESTING {
      MembersIndent(ms, depth, base, k);
    }
  }

  lemma {:induction false} ArrayIndents(items: seq<Value>, depth: nat, base: nat, k: string)
    requires items != [] && WellFormedItems(items)
    ensures IndentFrom(['['] + EmitItems(LayoutItems(items, base, false), k), depth, false, Outside)
         == if depth + 1 + HeightItems(items) <= MAX_NESTING
            then Then(DArray(LayoutItems(items, depth, true), ""), IndentFrom(k, depth, false, Outside)) else None
    decreases items, 2
  {
    var body := EmitItems(LayoutItems(items, base, false), k);
    HeadTail('[', body);
    LayoutDenotes(items[0], base + 1, false);
    EmitHead(Layout(items[0], base + 1, false),
             LayoutItems(items, base, false)[0].after + MoreItems(LayoutItems(items[1..], base, false), k));
    Settles(body, depth);
    if depth + 1 <= MAX_NESTING {
      ItemsIndent(items, depth, base, k);
    }
  }

  /** The members, from the line break before the first to the closing brace. */
  lemma {:induction false} MembersIndent(ms: seq<Member>, depth: nat, base: nat, k: string)
    requires ms != [] && WellFormedMembers(ms)
    requires depth + 1 <= MAX_NESTING
    ensures Prepend(Newline(depth + 1),
                    IndentFrom(EmitMembers(LayoutMembers(ms, base, false), k), depth + 1, false, Outside))
         == if depth + 1 + HeightMembers(ms) <= MAX_NESTING
            then ThenMembers(LayoutMembers(ms, depth, true), IndentFrom(k, depth, false, Outside)) else None
    decreases ms, 1
  {
    var more := MoreMembers(LayoutMembers(ms[1..], base, false), k);
    var doc := Layout(ms[0].value, base + 1, false);
    assert "" + more == more;
    CompactMember(ms[0].key, doc, Emit(doc, more));
    MemberIndents(ms[0].key, Emit(doc, more), depth + 1);
    Indents(ms[0].value, depth + 1, base + 1, more);
    MoreMembersIndent(ms, depth, base, k);
    var after := IndentFrom(k, depth, false, Outside);
    if depth + 1 + HeightMembers(ms) <= MAX_NESTING && after.Some? {
      var pretty := LayoutMembers(ms, depth, true);
      PrettyMember(pretty[0], ms[0].key,
                   Emit(pretty[0].value, pretty[0].after + MoreMembers(pretty[1..], after.value)));
    }
  }

  lemma PrettyMember(m: DMember, key: string, body: string)
    requires m.key == UnitsOf(key) && m.colonGap == "" && m.valueGap == " "
    ensures MemberText(m, body) == m.before + (Quote(key) + ": " + body)
  {
    assert ColonText(m, body) == ": " + body;
    assert ['"'] + (SpellUnits(m.key) + "\"" + (": " + body)) == Quote(key) + ": " + body;
  }

  function ThenMembers(ms: seq<DMember>, o: Option<string>): Option<string>
    requires ms != []
  {
    match o
    case None => None
    case Some(s) => Some(EmitMembers(ms, s))
  }

  /** A compact key and colon gain only the space after the colon. */
  lemma MemberIndents(key: string, body: string, depth: nat)
    ensures IndentFrom(Quote(key) + (":" + body), depth, false, Outside)
         == Prepend(Quote(key) + ": ", IndentFrom(body, depth, false, Outside))
  {
    CopiesString(UnitsOf(key), depth, ":" + body);
    assert ['"'] + (SpellUnits(UnitsOf(key)) + "\"" + (":" + body)) == Quote(key) + (":" + body);
    HeadTail(':', body);
    assert [':'] + " " == ": " && [':'] + body == ":" + body;
    assert IndentFrom(":" + body, depth, false, Outside) == Prepend(": ", IndentFrom(body, depth, false, Outside));
    PrependTwice(Quote(key), ": ", IndentFrom(body, depth, false, Outside));
  }

  lemma {:induction false} MoreMembersIndent(ms: seq<Member>, depth: nat, base: nat, k: string)
    requires ms != [] && WellFormedMembers(ms)
    requires depth + 1 <= MAX_NESTING
    ensures IndentFrom(MoreMembers(LayoutMembers(ms[1..], base, false), k), depth + 1, false, Outside)
         == if depth + 1 + HeightMembers(ms[1..]) <= MAX_NESTING
            then MoreThen(LayoutMembers(ms, depth, true), IndentFrom(k, depth, false, Outside)) else None
    decreases ms, 0
  {
    var after := IndentFrom(k, depth, false, Outside);
    if |ms| == 1 {
      Closes('}', depth, k);
      assert after.Some? ==> Newline(depth) + ['}'] + after.value == Newline(depth) + (['}'] + after.value);
    } else {
      var body := EmitMembers(LayoutMembers(ms[1..], base, false), k);
      MembersIndent(ms[1..], depth, base, k);
      Comma(depth + 1, body);
      var tail := LayoutMembers(ms[1..], depth, true);
      assert LayoutMembers(ms, depth, true)[1..] == tail && LayoutMembers(ms, depth, true)[0].after == "";
      assert after.Some? ==> "" + ([','] + EmitMembers(tail, after.value)) == [','] + EmitMembers(tail, after.value);
    }
  }

  function MoreThen(ms: seq<DMember>, o: Option<string>): Option<string>
    requires ms != []
  {
    match o
    case None => None
    case Some(s) => Some(ms[0].after + MoreMembers(ms[1..], s))
  }

  lemma Closes(close: char, depth: nat, k: string)
    requires IsCloser(close)
    ensures IndentFrom([close] + k, depth + 1, false, Outside)
            == Prepend(Newline(depth) + [close], IndentFrom(k, depth, false, Outside))
  {
    HeadTail(close, k);
  }

  lemma Comma(depth: nat, body: string)
    ensures IndentFrom([','] + body, depth, false, Outside)
         == Prepend([','], Prepend(Newline(depth), IndentFrom(body, depth, false, Outside)))
  {
    HeadTail(',', body);
    PrependTwice([','], Newline(depth), IndentFrom(body, depth, false, Outside));
  }

  /** The items, from the line break before the first to the closing bracket. */
  lemma {:induction false} ItemsIndent(items: seq<Value>, depth: nat, base: nat, k: string)
    requires items != [] && WellFormedItems(items)
    requires depth + 1 <= MAX_NESTING
    ensures Prepend(Newline(depth + 1),
                    IndentFrom(EmitItems(LayoutItems(items, base, false), k), depth + 1, false, Outside))
         == if depth + 1 + HeightItems(items) <= MAX_NESTING
            then ThenItems(LayoutItems(items, depth, true), IndentFrom(k, depth, false, Outside)) else None
    decreases items, 1
  {
    CompactItems(items, base, k);
    Indents(items[0], depth + 1, base + 1, MoreItems(LayoutItems(items[1..], base, false), k));
    MoreItemsIndent(items, depth, base, k);
    PrettyItems(items, depth, IndentFrom(k, depth, false, Outside));
  }

  lemma CompactItems(items: seq<Value>, base: nat, k: string)
    requires items != [] && WellFormedItems(items)
    ensures EmitItems(LayoutItems(items, base, false), k)
         == Emit(Layout(items[0], base + 1, false), MoreItems(LayoutItems(items[1..], base, false), k))
  {
    var ds := LayoutItems(items, base, false);
    var more := MoreItems(LayoutItems(items[1..], base, false), k);
    assert ds[1..] == LayoutItems(items[1..], base, false) && ds[0].before == "" && ds[0].after == "";
    assert "" + more == more;
    assert "" + Emit(ds[0].value, more) == Emit(ds[0].value, more);
  }

  /** The first item's layout around what follows it. */
  lemma PrettyItems(items: seq<Value>, depth: nat, o: Option<string>)
    requires items != [] && WellFormedItems(items)
    ensures var ds := LayoutItems(items, depth, true);
      ThenItems(ds, o) == Prepend(Newline(depth + 1), Then(Layout(items[0], depth + 1, true), MoreThenItems(ds, o)))
  {
    var ds := LayoutItems(items, depth, true);
    assert ds[0].before == Newline(depth + 1) && ds[0].value == Layout(items[0], depth + 1, true);
  }

  function ThenItems(items: seq<DItem>, o: Option<string>): Option<string>
    requires items != []
  {
    match o
    case None => None
    case Some(s) => Some(EmitItems(items, s))
  }

  lemma {:induction false} MoreItemsIndent(items: seq<Value>, depth: nat, base: nat, k: string)
    requires items != [] && WellFormedItems(items)
    requires depth + 1 <= MAX_NESTING
    ensures IndentFrom(MoreItems(LayoutItems(items[1..], base, false), k), depth + 1, false, Outside)
         == if depth + 1 + HeightItems(items[1..]) <= MAX_NESTING
            then MoreThenItems(LayoutItems(items, depth, true), IndentFrom(k, depth, false, Outside)) else None
    decreases items, 0
  {
    var after := IndentFrom(k, depth, false, Outside);
    if |items| == 1 {
      Closes(']', depth, k);
      assert after.Some? ==> Newline(depth) + [']'] + after.value == Newline(depth) + ([']'] + after.value);
    } else {
      var body := EmitItems(LayoutItems(items[1..], base, false), k);
      ItemsIndent(items[1..], depth, base, k);
      Comma(depth + 1, body);
      var tail := LayoutItems(items[1..], depth, true);
      assert LayoutItems(items, depth, true)[1..] == tail && LayoutItems(items, depth, true)[0].after == "";
      assert after.Some? ==> "" + ([','] + EmitItems(tail, after.value)) == [','] + EmitItems(tail, after.value);
    }
  }

  function MoreThenItems(items: seq<DItem>, o: Option<string>): Option<string>
    requires items != []
  {
    match o
    case None => None
    case Some(s) => Some(items[0].after + MoreItems(items[1..], s))
  }

  /** json.Indent succeeds on a tree's compact text exactly when the tree is at most 10000 deep,
      and then, with any whitespace after it, it reads back as the same tree. */
  lemma IndentedDecodes(v: Value, trail: string)
    requires WellFormed(v) && AllWs(trail)
    ensures Indent(Encode(v)).Some? <==> Height(v) <= MAX_NESTING
    ensures Indent(Encode(v)).Some? ==> Decode(Indent(Encode(v)).value + trail) == Some(v)
  {
    EncodeThenDecode(v);
    EncodeEmits(v, 0, "");
    assert Encode(v) + "" == Encode(v);
    Indents(v, 0, 0, "");
    LayoutDenotes(v, 0, true);
    if Height(v) <= MAX_NESTING {
      var d := Layout(v, 0, true);
      EmitThen(d, trail);
      assert Lays(Emit(d, trail), "", d, trail);
      AcceptsLayout(Emit(d, trail), "", d, trail);
    }
  }

  /** The continuation of a text is just appended to it. */
  lemma {:induction false} EmitThen(d: Doc, k: string)
    ensures Emit(d, k) == Emit(d, "") + k
    decreases d, 0
  {
    match d
    case DScalar(sc) =>
    case DObject(ms, inner) =>
      if ms != [] { EmitMembersThen(ms, k); }
      BracketsThen('{', inner, '}', if ms == [] then "" else EmitMembers(ms, ""), k);
    case DArray(items, inner) =>
      if items != [] { EmitItemsThen(items, k); }
      BracketsThen('[', inner, ']', if items == [] then "" else EmitItems(items, ""), k);
  }

  lemma BracketsThen(open: char, inner: string, close: char, body: string, k: string)
    ensures [open] + (inner + ([close] + k)) == [open] + (inner + ([close] + "")) + k
    ensures [open] + (body + k) == [open] + body + k
  {
  }

  lemma {:induction false} EmitMembersThen(ms: seq<DMember>, k: string)
    requires ms != []
    ensures EmitMembers(ms, k) == EmitMembers(ms, "") + k
    decreases ms, 1
  {
    var m, rest := ms[0], MoreMembers(ms[1..], "");
    MoreMembersThen(ms[1..], k);
    ValueThen(m.value, m.after, rest, k);
    MemberTextThen(m, Emit(m.value, m.after + rest), k);
  }

  lemma {:induction false} MoreMembersThen(ms: seq<DMember>, k: string)
    ensures MoreMembers(ms, k) == MoreMembers(ms, "") + k
    decreases ms, 2
  {
    if ms != [] {
      EmitMembersThen(ms, k);
      assert [','] + (EmitMembers(ms, "") + k) == [','] + EmitMembers(ms, "") + k;
    } else {
      assert ['}'] + k == ['}'] + "" + k;
    }
  }

  lemma {:induction false} ValueThen(d: Doc, after: string, rest: string, k: string)
    ensures Emit(d, after + (rest + k)) == Emit(d, after + rest) + k
    decreases d, 1
  {
    EmitThen(d, after + (rest + k));
    EmitThen(d, after + rest);
    Regrouped(Emit(d, ""), after, rest, k);
  }

  lemma Regrouped(a: string, b: string, c: string, d: string)
    ensures a + (b + (c + d)) == a + (b + c) + d
  {
  }

  lemma MemberTextThen(m: DMember, body: string, k: string)
    ensures MemberText(m, body + k) == MemberText(m, body) + k
  {
    assert ColonText(m, body + k) == ColonText(m, body) + k;
  }

  lemma {:induction false} EmitItemsThen(items: seq<DItem>, k: string)
    requires items != []
    ensures EmitItems(items, k) == EmitItems(items, "") + k
    decreases items, 1
  {
    var item, rest := items[0], MoreItems(items[1..], "");
    MoreItemsThen(items[1..], k);
    ValueThen(item.value, item.after, rest, k);
    assert item.before + (Emit(item.value, item.after + rest) + k)
           == item.before + Emit(item.value, item.after + rest) + k;
  }

  lemma {:induction false} MoreItemsThen(items: seq<DItem>, k: string)
    ensures MoreItems(items, k) == MoreItems(items, "") + k
    decreases items, 2
  {
    if items != [] {
      EmitItemsThen(items, k);
      assert [','] + (EmitItems(items, "") + k) == [','] + EmitItems(items, "") + k;
    } else {
      assert [']'] + k == [']'] + "" + k;
    }
  }
}
