/** What the printer writes is read back: the compact form the product hashes, and the
    indented form that is saved. */
module JsonRoundTrip {
  import opened Text
  import opened JsonLex
  import opened Json

  // ---------------------------------------------------------------- two layouts of a tree

  /** A line break and two spaces for each level. */
  function Newline(depth: nat): (s: string)
    ensures AllWs(s) && s != ""
  {
    "\n" + seq(2 * depth, _ => ' ')
  }

  function LineGap(depth: nat, pretty: bool): (s: string)
    ensures AllWs(s)
  {
    if pretty then Newline(depth) else ""
  }

  ghost function NumOf(lit: string): (n: Num)
    requires IsNumber(lit)
    ensures ValidNum(n) && SpellNum(n) == lit
  {
    var n :| ValidNum(n) && SpellNum(n) == lit;
    n
  }

  ghost function ScalarOfValue(v: Value): (sc: Scalar)
    requires WellFormed(v) && !v.Object? && !v.Array?
    ensures ValidScalar(sc)
  {
    match v
    case Null => SNull
    case Bool(b) => if b then STrue else SFalse
    case Number(lit) => SNum(NumOf(lit))
    case Str(s) => SStr(UnitsOf(s))
  }

  /** The layout of v whose first line is at the given depth: compact, or one member a line. */
  ghost function Layout(v: Value, depth: nat, pretty: bool): Doc
    requires WellFormed(v)
  {
    match v
    case Object(ms) => DObject(LayoutMembers(ms, depth, pretty), "")
    case Array(items) => DArray(LayoutItems(items, depth, pretty), "")
    case _ => DScalar(ScalarOfValue(v))
  }

  ghost function LayoutMembers(ms: seq<Member>, depth: nat, pretty: bool): (r: seq<DMember>)
    requires WellFormedMembers(ms)
    ensures |r| == |ms|
  {
    if ms == [] then []
    else
      [DMember(LineGap(depth + 1, pretty), UnitsOf(ms[0].key), "", if pretty then " " else "",
               Layout(ms[0].value, depth + 1, pretty), if |ms| == 1 then LineGap(depth, pretty) else "")]
      + LayoutMembers(ms[1..], depth, pretty)
  }

  ghost function LayoutItems(items: seq<Value>, depth: nat, pretty: bool): (r: seq<DItem>)
    requires WellFormedItems(items)
    ensures |r| == |items|
  {
    if items == [] then []
    else
      [DItem(LineGap(depth + 1, pretty), Layout(items[0], depth + 1, pretty),
             if |items| == 1 then LineGap(depth, pretty) else "")]
      + LayoutItems(items[1..], depth, pretty)
  }

  lemma {:induction false} LayoutDenotes(v: Value, depth: nat, pretty: bool)
    requires WellFormed(v)
    ensures ValidDoc(Layout(v, depth, pretty)) && DocValue(Layout(v, depth, pretty)) == v
    decreases v, 0
  {
    match v
    case Str(s) => UnitsMean(s);
    case Object(ms) => MembersDenote(ms, depth, pretty);
    case Array(items) => ItemsDenote(items, depth, pretty);
    case _ =>
  }

  lemma {:induction false} MembersDenote(ms: seq<Member>, depth: nat, pretty: bool)
    requires WellFormedMembers(ms)
    ensures ValidMembers(LayoutMembers(ms, depth, pretty)) && MembersValue(LayoutMembers(ms, depth, pretty)) == ms
    decreases ms, 1
  {
    if ms != [] {
      UnitsMean(ms[0].key);
      LayoutDenotes(ms[0].value, depth + 1, pretty);
      MembersDenote(ms[1..], depth, pretty);
      assert ms == [ms[0]] + ms[1..];
    }
  }

  lemma {:induction false} ItemsDenote(items: seq<Value>, depth: nat, pretty: bool)
    requires WellFormedItems(items)
    ensures ValidItems(LayoutItems(items, depth, pretty)) && ItemsValue(LayoutItems(items, depth, pretty)) == items
    decreases items, 1
  {
    if items != [] {
      LayoutDenotes(items[0], depth + 1, pretty);
      ItemsDenote(items[1..], depth, pretty);
      assert items == [items[0]] + items[1..];
    }
  }

  /** encodeOrderedJSON writes the compact layout. */
  lemma {:induction false} EncodeEmits(v: Value, depth: nat, k: string)
    requires WellFormed(v)
    ensures Encode(v) + k == Emit(Layout(v, depth, false), k)
    decreases v, 0
  {
    match v
    case Object(ms) =>
      Wrap('{', EncodeMembers(ms), '}', k);
      if ms != [] { EncodeMembersEmits(ms, depth, k); }
    case Array(items) =>
      Wrap('[', EncodeItems(items), ']', k);
      if items != [] { EncodeItemsEmits(items, depth, k); }
    case _ =>
  }

  lemma Wrap(open: char, body: string, close: char, k: string)
    ensures [open] + body + [close] + k == [open] + (body + ([close] + k))
  {
  }

  lemma CompactMember(key: string, doc: Doc, body: string)
    ensures MemberText(DMember("", UnitsOf(key), "", "", doc, ""), body) == Quote(key) + (":" + body)
  {
    assert "" + ([':'] + ("" + body)) == ":" + body;
    assert "" + (['"'] + (SpellUnits(UnitsOf(key)) + "\"" + (":" + body))) == Quote(key) + (":" + body);
  }

  lemma LeftUnit(s: string)
    ensures "" + s == s
  {
  }

  lemma Regroup(quoted: string, e: string, rest: string, k: string)
    ensures quoted + ":" + e + rest + k == quoted + (":" + (e + (rest + k)))
    ensures e + rest + k == e + (rest + k)
  {
  }

  lemma {:induction false} EncodeMembersEmits(ms: seq<Member>, depth: nat, k: string)
    requires ms != [] && WellFormedMembers(ms)
    ensures EncodeMembers(ms) + (['}'] + k) == EmitMembers(LayoutMembers(ms, depth, false), k)
    decreases ms, 1
  {
    var more := MoreMembers(LayoutMembers(ms[1..], depth, false), k);
    var rest := if |ms| == 1 then "" else "," + EncodeMembers(ms[1..]);
    MoreEncoded(ms, depth, k);
    EncodeEmits(ms[0].value, depth + 1, more);
    Regroup(Quote(ms[0].key), Encode(ms[0].value), rest, ['}'] + k);
    CompactMember(ms[0].key, Layout(ms[0].value, depth + 1, false), Encode(ms[0].value) + more);
    LeftUnit(more);
  }

  lemma {:induction false} MoreEncoded(ms: seq<Member>, depth: nat, k: string)
    requires ms != [] && WellFormedMembers(ms)
    ensures (if |ms| == 1 then "" else "," + EncodeMembers(ms[1..])) + (['}'] + k)
         == MoreMembers(LayoutMembers(ms[1..], depth, false), k)
    decreases ms, 0
  {
    if |ms| > 1 {
      EncodeMembersEmits(ms[1..], depth, k);
      assert "," + EncodeMembers(ms[1..]) + (['}'] + k) == [','] + (EncodeMembers(ms[1..]) + (['}'] + k));
    }
  }

  lemma {:induction false} EncodeItemsEmits(items: seq<Value>, depth: nat, k: string)
    requires items != [] && WellFormedItems(items)
    ensures EncodeItems(items) + ([']'] + k) == EmitItems(LayoutItems(items, depth, false), k)
    decreases items, 1
  {
    var more := MoreItems(LayoutItems(items[1..], depth, false), k);
    var rest := if |items| == 1 then "" else "," + EncodeItems(items[1..]);
    MoreItemsEncoded(items, depth, k);
    EncodeEmits(items[0], depth + 1, more);
    Regroup(Encode(items[0]), Encode(items[0]), rest, [']'] + k);
    LeftUnit(more);
    LeftUnit(Encode(items[0]) + more);
  }

  lemma {:induction false} MoreItemsEncoded(items: seq<Value>, depth: nat, k: string)
    requires items != [] && WellFormedItems(items)
    ensures (if |items| == 1 then "" else "," + EncodeItems(items[1..])) + ([']'] + k)
         == MoreItems(LayoutItems(items[1..], depth, false), k)
    decreases items, 0
  {
    if |items| > 1 {
      EncodeItemsEmits(items[1..], depth, k);
      assert "," + EncodeItems(items[1..]) + ([']'] + k) == [','] + (EncodeItems(items[1..]) + ([']'] + k));
    }
  }

  /** Decoding the text of encode(v) and any continuation, unless v is a number and the continuation
      goes on with it, yields v and leaves the continuation unread. */
  lemma EncodeThenParse(v: Value, k: string)
    requires WellFormed(v) && !GoesOn(Layout(v, 0, false), k)
    ensures ParseValue(Encode(v) + k) == Done(v, k)
  {
    EncodeEmits(v, 0, k);
    LayoutDenotes(v, 0, false);
    Reads("", Layout(v, 0, false), k);
    assert "" + (Encode(v) + k) == Encode(v) + k;
  }

  lemma EncodeThenDecode(v: Value)
    requires WellFormed(v)
    ensures Decode(Encode(v)) == Some(v)
  {
    EncodeThenParse(v, "");
    assert Encode(v) + "" == Encode(v);
  }

  /** The compact text determines the tree: equal bytes hash the same tree and no other. */
  lemma EncodeInjective(v: Value, w: Value)
    requires WellFormed(v) && WellFormed(w) && Encode(v) == Encode(w)
    ensures v == w
  {
    EncodeThenDecode(v);
    EncodeThenDecode(w);
  }

  // ---------------------------------------------------------------- what is read is well formed

  lemma {:induction false} DocWellFormed(d: Doc)
    requires ValidDoc(d)
    ensures WellFormed(DocValue(d))
    decreases d, 0
  {
    match d
    case DScalar(sc) => assert sc.SNum? ==> ValidNum(sc.n) && SpellNum(sc.n) == SpellNum(sc.n);
    case DObject(ms, _) => MembersWellFormed(ms);
    case DArray(items, _) => ItemsWellFormed(items);
  }

  lemma {:induction false} MembersWellFormed(ms: seq<DMember>)
    requires ValidMembers(ms)
    ensures WellFormedMembers(MembersValue(ms))
    decreases ms, 1
  {
    if ms != [] {
      DocWellFormed(ms[0].value);
      MembersWellFormed(ms[1..]);
      assert MembersValue(ms)[1..] == MembersValue(ms[1..]);
    }
  }

  lemma {:induction false} ItemsWellFormed(items: seq<DItem>)
    requires ValidItems(items)
    ensures WellFormedItems(ItemsValue(items))
    decreases items, 1
  {
    if items != [] {
      DocWellFormed(items[0].value);
      ItemsWellFormed(items[1..]);
      assert ItemsValue(items)[1..] == ItemsValue(items[1..]);
    }
  }

  /** Every tree the reader returns can be written and read back. */
  lemma DecodedWellFormed(payload: string)
    requires Decode(payload).Some?
    ensures WellFormed(Decode(payload).value)
  {
    var _, d, _ := AcceptedLays(payload);
    DocWellFormed(d);
  }
}
