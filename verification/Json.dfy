/** The ordered JSON codec of the damaged-store axis: the token-level reader, the compact
    printer, and the RFC 8259 grammar both are proved against. */
module Json {
  import opened Text
  import opened JsonLex

  /** The ordered tree: member order, duplicate keys and number literals are kept. */
  datatype Value =
    | Null
    | Bool(b: bool)
    | Number(lit: string)
    | Str(s: string)
    | Object(members: seq<Member>)
    | Array(items: seq<Value>)

  datatype Member = Member(key: string, value: Value)

  /** Every number in the tree is a literal of the number grammar. */
  ghost predicate WellFormed(v: Value) {
    match v
    case Number(lit) => IsNumber(lit)
    case Object(ms) => WellFormedMembers(ms)
    case Array(items) => WellFormedItems(items)
    case _ => true
  }

  ghost predicate WellFormedMembers(ms: seq<Member>) {
    ms == [] || (WellFormed(ms[0].value) && WellFormedMembers(ms[1..]))
  }

  ghost predicate WellFormedItems(items: seq<Value>) {
    items == [] || (WellFormed(items[0]) && WellFormedItems(items[1..]))
  }

  // ---------------------------------------------------------------- scalars

  datatype Scalar = SNull | STrue | SFalse | SNum(n: Num) | SStr(units: seq<Unit>)

  predicate ValidScalar(sc: Scalar) {
    match sc
    case SNum(n) => ValidNum(n)
    case SStr(us) => ValidUnits(us)
    case _ => true
  }

  function SpellScalar(sc: Scalar): string {
    match sc
    case SNull => "null"
    case STrue => "true"
    case SFalse => "false"
    case SNum(n) => SpellNum(n)
    case SStr(us) => "\"" + (SpellUnits(us) + "\"")
  }

  function ScalarValue(sc: Scalar): Value
    requires ValidScalar(sc)
  {
    match sc
    case SNull => Null
    case STrue => Bool(true)
    case SFalse => Bool(false)
    case SNum(n) => Number(SpellNum(n))
    case SStr(us) => Str(Meaning(us))
  }

  function LexScalar(t: string): (r: Parse<Scalar>)
    ensures r.Done? ==> ValidScalar(r.value) && |r.rest| < |t|
  {
    if t != "" && t[0] == '"' then
      match LexUnits(t[1..])
      case Fail => Fail
      case Done(us, rest) => Done(SStr(us), rest)
    else LexWord(t)
  }

  function LexWord(t: string): (r: Parse<Scalar>)
    ensures r.Done? ==> ValidScalar(r.value) && |r.rest| < |t|
  {
    if HasPrefix(t, "null") then Done(SNull, t[4..])
    else if HasPrefix(t, "true") then Done(STrue, t[4..])
    else if HasPrefix(t, "false") then Done(SFalse, t[5..])
    else
      match LexNum(t)
      case Fail => Fail
      case Done(n, rest) => Done(SNum(n), rest)
  }

  lemma LexScalarSpells(t: string)
    requires LexScalar(t).Done?
    ensures t == SpellScalar(LexScalar(t).value) + LexScalar(t).rest
  {
    if t[0] == '"' {
      LexUnitsSpells(t[1..]);
      var us, rest := LexUnits(t[1..]).value, LexUnits(t[1..]).rest;
      assert ['"'] + (SpellUnits(us) + "\"" + rest) == "\"" + (SpellUnits(us) + "\"") + rest;
      assert t == ['"'] + t[1..];
    } else if LexScalar(t).value.SNum? {
      LexNumSpells(t);
    }
  }

  lemma NumHead(n: Num, k: string)
    requires ValidNum(n)
    ensures SpellNum(n) != "" && ((SpellNum(n) + k)[0] == '-' || IsDigit((SpellNum(n) + k)[0]))
  {
    assert SpellUnsigned(n)[0] == n.int_[0];
  }

  lemma WordLexed(sc: Scalar, k: string)
    requires !sc.SNum? && !sc.SStr?
    ensures (SpellScalar(sc) + k)[0] != '"' && LexWord(SpellScalar(sc) + k) == Done(sc, k)
  {
    var word := SpellScalar(sc);
    var t := word + k;
    assert t[..|word|] == word && t[|word|..] == k;
    assert HasPrefix(t, "null") ==> t[0] == 'n';
    assert HasPrefix(t, "true") ==> t[0] == 't';
  }

  lemma NumScalarLexed(n: Num, k: string)
    requires ValidNum(n) && !Extends(n, k)
    ensures (SpellNum(n) + k)[0] != '"' && LexWord(SpellNum(n) + k) == Done(SNum(n), k)
  {
    var t := SpellNum(n) + k;
    NumHead(n, k);
    NumLexed(n, k);
    if HasPrefix(t, "null") || HasPrefix(t, "true") || HasPrefix(t, "false") {
      PrefixHead(t, "null");
      PrefixHead(t, "true");
      PrefixHead(t, "false");
      assert false;
    }
  }

  lemma PrefixHead(t: string, p: string)
    requires p != "" && t != ""
    ensures HasPrefix(t, p) ==> t[0] == p[0]
  {
  }

  lemma StringScalarLexed(us: seq<Unit>, k: string)
    requires ValidUnits(us)
    ensures LexScalar("\"" + (SpellUnits(us) + "\"") + k) == Done(SStr(us), k)
  {
    var tail := SpellUnits(us) + "\"" + k;
    ConsAssoc('"', SpellUnits(us) + "\"", k);
    HeadTail('"', tail);
    LexSpelled(us, k);
  }

  lemma ScalarLexed(sc: Scalar, k: string)
    requires ValidScalar(sc) && (sc.SNum? ==> !Extends(sc.n, k))
    ensures LexScalar(SpellScalar(sc) + k) == Done(sc, k)
  {
    match sc
    case SNum(n) => NumScalarLexed(n, k);
    case SStr(us) => StringScalarLexed(us, k);
    case _ => WordLexed(sc, k);
  }

  lemma ScalarHead(sc: Scalar, k: string)
    requires ValidScalar(sc)
    ensures SpellScalar(sc) + k != "" && !IsWs((SpellScalar(sc) + k)[0])
    ensures (SpellScalar(sc) + k)[0] !in "{[]}"
  {
    if sc.SNum? {
      NumHead(sc.n, k);
    }
  }

  // ---------------------------------------------------------------- the reader

  /** decodeOrderedValue over the text the token decoder has left: the value and what is left. */
  function ParseValue(s: string): (r: Parse<Value>)
    ensures r.Done? ==> |r.rest| < |s|
    decreases |s|, 0
  {
    var t := SkipWs(s);
    if t == "" then Fail
    else if t[0] == '{' then ParseObject(t[1..])
    else if t[0] == '[' then ParseArray(t[1..])
    else
      match LexScalar(t)
      case Fail => Fail
      case Done(sc, rest) => Done(ScalarValue(sc), rest)
  }

  /** What follows an opening brace. */
  function ParseObject(s: string): (r: Parse<Value>)
    ensures r.Done? ==> |r.rest| < |s|
    decreases |s|, 3
  {
    var u := SkipWs(s);
    if u != "" && u[0] == '}' then Done(Object([]), u[1..])
    else
      match ParseMembers(s)
      case Fail => Fail
      case Done(ms, rest) => Done(Object(ms), rest)
  }

  /** What follows an opening bracket. */
  function ParseArray(s: string): (r: Parse<Value>)
    ensures r.Done? ==> |r.rest| < |s|
    decreases |s|, 3
  {
    var u := SkipWs(s);
    if u != "" && u[0] == ']' then Done(Array([]), u[1..])
    else
      match ParseItems(s)
      case Fail => Fail
      case Done(items, rest) => Done(Array(items), rest)
  }

  /** A string key, a colon and a value. */
  function ParseMember(s: string): (r: Parse<Member>)
    ensures r.Done? ==> |r.rest| < |s|
    decreases |s|, 1
  {
    var t := SkipWs(s);
    if t == "" || t[0] != '"' then Fail
    else
      match LexUnits(t[1..])
      case Fail => Fail
      case Done(key, u) =>
        var w := SkipWs(u);
        if w == "" || w[0] != ':' then Fail
        else
          match ParseValue(w[1..])
          case Fail => Fail
          case Done(v, rest) => Done(Member(Meaning(key), v), rest)
  }

  /** One or more members separated by commas, up to and including the closing brace. */
  function ParseMembers(s: string): (r: Parse<seq<Member>>)
    ensures r.Done? ==> |r.rest| < |s|
    decreases |s|, 2
  {
    match ParseMember(s)
    case Fail => Fail
    case Done(m, t) =>
      var u := SkipWs(t);
      if u == "" then Fail
      else if u[0] == '}' then Done([m], u[1..])
      else if u[0] != ',' then Fail
      else
        match ParseMembers(u[1..])
        case Fail => Fail
        case Done(ms, rest) => Done([m] + ms, rest)
  }

  function ParseItems(s: string): (r: Parse<seq<Value>>)
    ensures r.Done? ==> |r.rest| < |s|
    decreases |s|, 2
  {
    match ParseValue(s)
    case Fail => Fail
    case Done(v, t) =>
      var u := SkipWs(t);
      if u == "" then Fail
      else if u[0] == ']' then Done([v], u[1..])
      else if u[0] != ',' then Fail
      else
        match ParseItems(u[1..])
        case Fail => Fail
        case Done(vs, rest) => Done([v] + vs, rest)
  }

  /** decodeOrderedJSON: exactly one value, and only whitespace after it. */
  function Decode(payload: string): Option<Value> {
    match ParseValue(payload)
    case Fail => None
    case Done(v, rest) => if SkipWs(rest) == "" then Some(v) else None
  }

  // ---------------------------------------------------------------- the printer

  function Quote(s: string): string {
    "\"" + (SpellUnits(UnitsOf(s)) + "\"")
  }

  /** encodeOrderedJSON: compact, in member order, literals verbatim. */
  function Encode(v: Value): string {
    match v
    case Null => "null"
    case Bool(b) => if b then "true" else "false"
    case Number(lit) => lit
    case Str(s) => Quote(s)
    case Object(ms) => "{" + EncodeMembers(ms) + "}"
    case Array(items) => "[" + EncodeItems(items) + "]"
  }

  function EncodeMembers(ms: seq<Member>): string {
    if ms == [] then ""
    else
      Quote(ms[0].key) + ":" + Encode(ms[0].value)
      + (if |ms| == 1 then "" else "," + EncodeMembers(ms[1..]))
  }

  function EncodeItems(items: seq<Value>): string {
    if items == [] then ""
    else Encode(items[0]) + (if |items| == 1 then "" else "," + EncodeItems(items[1..]))
  }

  // ---------------------------------------------------------------- the grammar

  /** A JSON text with its whitespace and spelling choices made explicit. */
  datatype Doc =
    | DScalar(sc: Scalar)
    | DObject(members: seq<DMember>, inner: string)
    | DArray(items: seq<DItem>, inner: string)

  datatype DMember = DMember(before: string, key: seq<Unit>, colonGap: string, valueGap: string, value: Doc,
                             after: string)
  datatype DItem = DItem(before: string, value: Doc, after: string)

  predicate ValidDoc(d: Doc) {
    match d
    case DScalar(sc) => ValidScalar(sc)
    case DObject(ms, inner) => AllWs(inner) && ValidMembers(ms)
    case DArray(items, inner) => AllWs(inner) && ValidItems(items)
  }

  predicate ValidMembers(ms: seq<DMember>) {
    ms == [] || (ValidGaps(ms[0]) && ValidDoc(ms[0].value) && ValidMembers(ms[1..]))
  }

  predicate ValidGaps(m: DMember) {
    AllWs(m.before) && AllWs(m.colonGap) && AllWs(m.valueGap) && AllWs(m.after) && ValidUnits(m.key)
  }

  predicate ValidItems(items: seq<DItem>) {
    items == [] || (AllWs(items[0].before) && AllWs(items[0].after) && ValidDoc(items[0].value)
                    && ValidItems(items[1..]))
  }

  /** The text of d followed by k. */
  function Emit(d: Doc, k: string): string
    decreases d, 1
  {
    match d
    case DScalar(sc) => SpellScalar(sc) + k
    case DObject(ms, inner) => ['{'] + (if ms == [] then inner + (['}'] + k) else EmitMembers(ms, k))
    case DArray(items, inner) => ['['] + (if items == [] then inner + ([']'] + k) else EmitItems(items, k))
  }

  /** A member around the text of its value and what follows. */
  function MemberText(m: DMember, body: string): string {
    m.before + (['"'] + (SpellUnits(m.key) + "\"" + ColonText(m, body)))
  }

  function ColonText(m: DMember, body: string): string {
    m.colonGap + ([':'] + (m.valueGap + body))
  }

  function EmitMembers(ms: seq<DMember>, k: string): string
    requires ms != []
    decreases ms, 3
  {
    MemberText(ms[0], Emit(ms[0].value, ms[0].after + MoreMembers(ms[1..], k)))
  }

  /** What follows a member when ms are still to come. */
  function MoreMembers(ms: seq<DMember>, k: string): string
    decreases ms, 4
  {
    if ms == [] then ['}'] + k else [','] + EmitMembers(ms, k)
  }

  function EmitItems(items: seq<DItem>, k: string): string
    requires items != []
    decreases items, 3
  {
    items[0].before + Emit(items[0].value, items[0].after + MoreItems(items[1..], k))
  }

  function MoreItems(items: seq<DItem>, k: string): string
    decreases items, 4
  {
    if items == [] then [']'] + k else [','] + EmitItems(items, k)
  }

  function DocValue(d: Doc): Value
    requires ValidDoc(d)
    decreases d
  {
    match d
    case DScalar(sc) => ScalarValue(sc)
    case DObject(ms, _) => Object(MembersValue(ms))
    case DArray(items, _) => Array(ItemsValue(items))
  }

  function MembersValue(ms: seq<DMember>): (r: seq<Member>)
    requires ValidMembers(ms)
    decreases ms
  {
    if ms == [] then []
    else [Member(Meaning(ms[0].key), DocValue(ms[0].value))] + MembersValue(ms[1..])
  }

  function ItemsValue(items: seq<DItem>): (r: seq<Value>)
    requires ValidItems(items)
    decreases items
  {
    if items == [] then []
    else [DocValue(items[0].value)] + ItemsValue(items[1..])
  }

  // ---------------------------------------------------------------- every text of the grammar is read

  lemma EmitHead(d: Doc, k: string)
    requires ValidDoc(d)
    ensures Emit(d, k) != "" && !IsWs(Emit(d, k)[0]) && Emit(d, k)[0] !in "]}"
  {
    if d.DScalar? {
      ScalarHead(d.sc, k);
    }
  }

  /** What may follow a member or an item: whitespace, a comma or a closing bracket. */
  predicate Delimited(k: string) {
    k != "" && (IsWs(k[0]) || k[0] == ',' || k[0] == ']' || k[0] == '}')
  }

  lemma GapDelimits(gap: string, k: string)
    requires AllWs(gap) && Delimited(k)
    ensures Delimited(gap + k)
  {
  }

  lemma MoreMembersHead(ms: seq<DMember>, k: string)
    ensures Delimited(MoreMembers(ms, k)) && !IsWs(MoreMembers(ms, k)[0])
    ensures MoreMembers(ms, k)[0] == (if ms == [] then '}' else ',')
    ensures MoreMembers(ms, k)[1..] == (if ms == [] then k else EmitMembers(ms, k))
  {
    if ms == [] { HeadTail('}', k); } else { HeadTail(',', EmitMembers(ms, k)); }
  }

  lemma MoreItemsHead(items: seq<DItem>, k: string)
    ensures Delimited(MoreItems(items, k)) && !IsWs(MoreItems(items, k)[0])
    ensures MoreItems(items, k)[0] == (if items == [] then ']' else ',')
    ensures MoreItems(items, k)[1..] == (if items == [] then k else EmitItems(items, k))
  {
    if items == [] { HeadTail(']', k); } else { HeadTail(',', EmitItems(items, k)); }
  }

  /** The text goes on with the document's own number. */
  predicate GoesOn(d: Doc, k: string) {
    d.DScalar? && d.sc.SNum? && Extends(d.sc.n, k)
  }

  lemma {:induction false} Reads(gap: string, d: Doc, k: string)
    requires AllWs(gap) && ValidDoc(d) && !GoesOn(d, k)
    ensures ParseValue(gap + Emit(d, k)) == Done(DocValue(d), k)
    decreases d, 0
  {
    EmitHead(d, k);
    SkipGap(gap, Emit(d, k));
    match d
    case DScalar(sc) =>
      ScalarLexed(sc, k);
      ScalarHead(sc, k);
    case DObject(ms, inner) =>
      if ms == [] { EmptyObjectReads(inner, k); } else { ObjectReads(ms, k); }
      HeadTail('{', if ms == [] then inner + (['}'] + k) else EmitMembers(ms, k));
    case DArray(items, inner) =>
      if items == [] { EmptyArrayReads(inner, k); } else { ArrayReads(items, k); }
      HeadTail('[', if items == [] then inner + ([']'] + k) else EmitItems(items, k));
  }

  /** A text of the grammar is read as its value, and whatever follows it is left unread, unless it
      goes on with a number; then it is not read so. */
  lemma ReadsIff(gap: string, d: Doc, k: string)
    requires AllWs(gap) && ValidDoc(d)
    ensures ParseValue(gap + Emit(d, k)) == Done(DocValue(d), k) <==> !GoesOn(d, k)
  {
    if !GoesOn(d, k) {
      Reads(gap, d, k);
    } else {
      EmitHead(d, k);
      SkipGap(gap, Emit(d, k));
      NumberGoesOn(d.sc.n, k);
      NumHead(d.sc.n, k);
    }
  }

  lemma NumberGoesOn(n: Num, k: string)
    requires ValidNum(n) && Extends(n, k)
    ensures var r := LexScalar(SpellNum(n) + k);
      r.Done? && ScalarValue(r.value) == Number(SpellNum(n)) ==> r.rest != k
  {
    var t := SpellNum(n) + k;
    var r := LexScalar(t);
    if r.Done? && ScalarValue(r.value) == Number(SpellNum(n)) {
      NumSpelledOnce(r.value.n, n);
      LexMaximal(t);
    }
  }

  lemma EmptyObjectReads(inner: string, k: string)
    requires AllWs(inner)
    ensures ParseObject(inner + (['}'] + k)) == Done(Object([]), k)
  {
    HeadTail('}', k);
    SkipGap(inner, ['}'] + k);
  }

  lemma EmptyArrayReads(inner: string, k: string)
    requires AllWs(inner)
    ensures ParseArray(inner + ([']'] + k)) == Done(Array([]), k)
  {
    HeadTail(']', k);
    SkipGap(inner, [']'] + k);
  }

  lemma {:induction false} ObjectReads(ms: seq<DMember>, k: string)
    requires ms != [] && ValidMembers(ms)
    ensures ParseObject(EmitMembers(ms, k)) == Done(Object(MembersValue(ms)), k)
    decreases ms, 3
  {
    MembersRead(ms, k);
    MemberTextHead(ms[0], Emit(ms[0].value, ms[0].after + MoreMembers(ms[1..], k)));
  }

  lemma MemberTextHead(m: DMember, body: string)
    requires ValidGaps(m)
    ensures SkipWs(MemberText(m, body)) == ['"'] + (SpellUnits(m.key) + "\"" + ColonText(m, body))
  {
    SkipGap(m.before, ['"'] + (SpellUnits(m.key) + "\"" + ColonText(m, body)));
  }

  lemma {:induction false} ArrayReads(items: seq<DItem>, k: string)
    requires items != [] && ValidItems(items)
    ensures ParseArray(EmitItems(items, k)) == Done(Array(ItemsValue(items)), k)
    decreases items, 3
  {
    ItemsRead(items, k);
    var rest := items[0].after + MoreItems(items[1..], k);
    EmitHead(items[0].value, rest);
    SkipGap(items[0].before, Emit(items[0].value, rest));
  }

  lemma MemberParts(s: string, t: string, key: seq<Unit>, u: string, w: string, v: Value, rest: string)
    requires SkipWs(s) == ['"'] + t && LexUnits(t) == Done(key, u) && SkipWs(u) == [':'] + w
             && ParseValue(w) == Done(v, rest)
    ensures ParseMember(s) == Done(Member(Meaning(key), v), rest)
  {
    HeadTail('"', t);
    HeadTail(':', w);
  }

  /** A member is read once its value is. */
  lemma MemberReads(m: DMember, body: string, v: Value, rest: string)
    requires ValidGaps(m) && ParseValue(m.valueGap + body) == Done(v, rest)
    ensures ParseMember(MemberText(m, body)) == Done(Member(Meaning(m.key), v), rest)
  {
    var colon := ColonText(m, body);
    MemberTextHead(m, body);
    LexSpelled(m.key, colon);
    ColonHead(m, body);
    MemberParts(MemberText(m, body), SpellUnits(m.key) + "\"" + colon, m.key, colon, m.valueGap + body, v, rest);
  }

  lemma ColonHead(m: DMember, body: string)
    requires ValidGaps(m)
    ensures SkipWs(ColonText(m, body)) == [':'] + (m.valueGap + body)
  {
    SkipGap(m.colonGap, [':'] + (m.valueGap + body));
  }

  lemma MembersStep(s: string, m: Member, t: string, u: string, more: seq<Member>, k: string)
    requires ParseMember(s) == Done(m, t) && SkipWs(t) == u && u != ""
    requires if more == [] then u[0] == '}' && u[1..] == k else u[0] == ',' && ParseMembers(u[1..]) == Done(more, k)
    ensures ParseMembers(s) == Done([m] + more, k)
  {
    if more == [] {
      assert [m] + more == [m];
    }
  }

  lemma {:induction false} MembersRead(ms: seq<DMember>, k: string)
    requires ms != [] && ValidMembers(ms)
    ensures ParseMembers(EmitMembers(ms, k)) == Done(MembersValue(ms), k)
    decreases ms, 2
  {
    var m, rest := ms[0], MoreMembers(ms[1..], k);
    MoreMembersHead(ms[1..], k);
    GapDelimits(m.after, rest);
    Reads(m.valueGap, m.value, m.after + rest);
    MemberReads(m, Emit(m.value, m.after + rest), DocValue(m.value), m.after + rest);
    SkipGap(m.after, rest);
    if |ms| > 1 {
      MembersRead(ms[1..], k);
    }
    MembersStep(MemberText(m, Emit(m.value, m.after + rest)),
                Member(Meaning(m.key), DocValue(m.value)), m.after + rest, rest, MembersValue(ms[1..]), k);
  }

  lemma ItemsStep(s: string, v: Value, t: string, u: string, more: seq<Value>, k: string)
    requires ParseValue(s) == Done(v, t) && SkipWs(t) == u && u != ""
    requires if more == [] then u[0] == ']' && u[1..] == k else u[0] == ',' && ParseItems(u[1..]) == Done(more, k)
    ensures ParseItems(s) == Done([v] + more, k)
  {
    if more == [] {
      assert [v] + more == [v];
    }
  }

  lemma {:induction false} ItemsRead(items: seq<DItem>, k: string)
    requires items != [] && ValidItems(items)
    ensures ParseItems(EmitItems(items, k)) == Done(ItemsValue(items), k)
    decreases items, 2
  {
    var item, rest := items[0], MoreItems(items[1..], k);
    MoreItemsHead(items[1..], k);
    GapDelimits(item.after, rest);
    Reads(item.before, item.value, item.after + rest);
    SkipGap(item.after, rest);
    if |items| > 1 {
      ItemsRead(items[1..], k);
    }
    ItemsStep(item.before + Emit(item.value, item.after + rest), DocValue(item.value), item.after + rest, rest,
              ItemsValue(items[1..]), k);
  }

  // ---------------------------------------------------------------- nothing else is read

  lemma Uncons(s: string)
    requires s != ""
    ensures s == [s[0]] + s[1..]
  {
  }

  lemma {:induction false} ReadOnlyGrammar(s: string) returns (gap: string, d: Doc)
    requires ParseValue(s).Done?
    ensures AllWs(gap) && ValidDoc(d) && DocValue(d) == ParseValue(s).value
    ensures s == gap + Emit(d, ParseValue(s).rest)
    decreases |s|, 0
  {
    gap := Gap(s);
    GapSkipped(s);
    var t := SkipWs(s);
    Uncons(t);
    if t[0] == '{' {
      d := ObjectOnlyGrammar(t[1..]);
    } else if t[0] == '[' {
      d := ArrayOnlyGrammar(t[1..]);
    } else {
      LexScalarSpells(t);
      d := DScalar(LexScalar(t).value);
    }
  }

  lemma {:induction false} ObjectOnlyGrammar(s: string) returns (d: Doc)
    requires ParseObject(s).Done?
    ensures ValidDoc(d) && DocValue(d) == ParseObject(s).value
    ensures ['{'] + s == Emit(d, ParseObject(s).rest)
    decreases |s|, 3
  {
    var u := SkipWs(s);
    if u != "" && u[0] == '}' {
      GapSkipped(s);
      d := DObject([], Gap(s));
      Uncons(u);
    } else {
      var ms := MembersOnlyGrammar(s);
      d := DObject(ms, "");
    }
  }

  lemma {:induction false} ArrayOnlyGrammar(s: string) returns (d: Doc)
    requires ParseArray(s).Done?
    ensures ValidDoc(d) && DocValue(d) == ParseArray(s).value
    ensures ['['] + s == Emit(d, ParseArray(s).rest)
    decreases |s|, 3
  {
    var u := SkipWs(s);
    if u != "" && u[0] == ']' {
      GapSkipped(s);
      d := DArray([], Gap(s));
      Uncons(u);
    } else {
      var items := ItemsOnlyGrammar(s);
      d := DArray(items, "");
    }
  }

  /** k is what follows the whitespace after the member. */
  lemma {:induction false} MemberOnlyGrammar(s: string, k: string) returns (m: DMember)
    requires ParseMember(s).Done? && SkipWs(ParseMember(s).rest) == k
    ensures ValidGaps(m) && ValidDoc(m.value) && Member(Meaning(m.key), DocValue(m.value)) == ParseMember(s).value
    ensures s == MemberText(m, Emit(m.value, m.after + k))
    decreases |s|, 1
  {
    var t := SkipWs(s);
    Uncons(t);
    var lexed := LexUnits(t[1..]);
    GapSkipped(s);
    GapSkipped(lexed.rest);
    GapSkipped(ParseMember(s).rest);
    LexUnitsSpells(t[1..]);
    var w := SkipWs(lexed.rest);
    Uncons(w);
    var valueGap, value := ReadOnlyGrammar(w[1..]);
    m := DMember(Gap(s), lexed.value, Gap(lexed.rest), valueGap, value, Gap(ParseMember(s).rest));
    assert lexed.rest == ColonText(m, Emit(m.value, m.after + k));
  }

  lemma {:induction false} MembersOnlyGrammar(s: string) returns (ms: seq<DMember>)
    requires ParseMembers(s).Done?
    ensures ms != [] && ValidMembers(ms)
    ensures MembersValue(ms) == ParseMembers(s).value && s == EmitMembers(ms, ParseMembers(s).rest)
    decreases |s|, 2
  {
    var u := SkipWs(ParseMember(s).rest);
    var m := MemberOnlyGrammar(s, u);
    Uncons(u);
    var more: seq<DMember> := [];
    if u[0] == ',' {
      more := MembersOnlyGrammar(u[1..]);
    }
    ms := [m] + more;
    assert ms[1..] == more;
    assert u == MoreMembers(more, ParseMembers(s).rest);
  }

  lemma {:induction false} ItemsOnlyGrammar(s: string) returns (items: seq<DItem>)
    requires ParseItems(s).Done?
    ensures items != [] && ValidItems(items)
    ensures ItemsValue(items) == ParseItems(s).value && s == EmitItems(items, ParseItems(s).rest)
    decreases |s|, 2
  {
    var t := ParseValue(s).rest;
    var u := SkipWs(t);
    var before, value := ReadOnlyGrammar(s);
    var item := DItem(before, value, Gap(t));
    GapSkipped(t);
    Uncons(u);
    var more: seq<DItem> := [];
    if u[0] == ',' {
      more := ItemsOnlyGrammar(u[1..]);
    }
    items := [item] + more;
    assert items[1..] == more;
    assert u == MoreItems(more, ParseItems(s).rest);
  }

  /** The payload is a JSON text denoting v: whitespace, one value of the grammar, whitespace. */
  ghost predicate Denotes(payload: string, v: Value) {
    exists gap, d, trail :: Lays(payload, gap, d, trail) && DocValue(d) == v
  }

  predicate Lays(payload: string, gap: string, d: Doc, trail: string) {
    AllWs(gap) && ValidDoc(d) && AllWs(trail) && payload == gap + Emit(d, trail)
  }

  lemma AcceptsLayout(payload: string, gap: string, d: Doc, trail: string)
    requires Lays(payload, gap, d, trail)
    ensures Decode(payload) == Some(DocValue(d))
  {
    Reads(gap, d, trail);
    SkipGap(trail, "");
    assert trail + "" == trail;
  }

  lemma AcceptedLays(payload: string) returns (gap: string, d: Doc, trail: string)
    requires Decode(payload).Some?
    ensures Lays(payload, gap, d, trail) && DocValue(d) == Decode(payload).value
  {
    gap, d := ReadOnlyGrammar(payload);
    trail := ParseValue(payload).rest;
    GapSkipped(trail);
    assert Gap(trail) == trail;
  }

  /** The reader accepts exactly the JSON texts, and returns exactly what they denote. */
  lemma DecodeIsGrammar(payload: string, v: Value)
    ensures Decode(payload) == Some(v) <==> Denotes(payload, v)
  {
    if Denotes(payload, v) {
      var gap, d, trail :| Lays(payload, gap, d, trail) && DocValue(d) == v;
      AcceptsLayout(payload, gap, d, trail);
    }
    if Decode(payload) == Some(v) {
      var gap, d, trail := AcceptedLays(payload);
    }
  }
}
