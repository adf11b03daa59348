/** The lexical half of the ordered JSON codec: whitespace, string literals and number
    literals (RFC 8259, sections 2, 6 and 7), as the Go token decoder reads them and as
    json.Marshal writes them. A reader takes the remaining text and returns a value and what
    it left unread. */
module JsonLex {
  import opened Text

  datatype Parse<+T> = Fail | Done(value: T, rest: string)

  // ---------------------------------------------------------------- whitespace

  predicate IsWs(c: char) {
    c == ' ' || c == '\t' || c == '\n' || c == '\r'
  }

  predicate AllWs(s: string) {
    forall i :: 0 <= i < |s| ==> IsWs(s[i])
  }

  function SkipWs(s: string): (t: string)
    ensures |t| <= |s|
    ensures t == "" || !IsWs(t[0])
  {
    if s == "" || !IsWs(s[0]) then s else SkipWs(s[1..])
  }

  /** The whitespace SkipWs passes over. */
  function Gap(s: string): string {
    s[..|s| - |SkipWs(s)|]
  }

  lemma {:induction false} GapSkipped(s: string)
    ensures AllWs(Gap(s)) && s == Gap(s) + SkipWs(s)
  {
    if s != "" && IsWs(s[0]) {
      GapSkipped(s[1..]);
      assert Gap(s) == [s[0]] + Gap(s[1..]);
    }
  }

  lemma {:induction false} SkipGap(gap: string, t: string)
    requires AllWs(gap)
    requires t == "" || !IsWs(t[0])
    ensures SkipWs(gap + t) == t
  {
    if gap == "" {
      assert gap + t == t;
    } else {
      assert (gap + t)[1..] == gap[1..] + t;
      SkipGap(gap[1..], t);
    }
  }

  // ---------------------------------------------------------------- string literals

  /** One source-level piece of a string literal. */
  datatype Unit = Plain(c: char) | Short(e: char) | Hex(digits: string)

  const BACKSPACE: char := 8 as char
  const FORMFEED: char := 12 as char
  const REPLACEMENT: char := 0xFFFD as char

  predicate IsHexDigit(c: char) {
    '0' <= c <= '9' || 'a' <= c <= 'f' || 'A' <= c <= 'F'
  }

  function HexDigitVal(c: char): (n: nat)
    requires IsHexDigit(c)
    ensures n < 16
  {
    if '0' <= c <= '9' then c as int - '0' as int
    else if 'a' <= c <= 'f' then c as int - 'a' as int + 10
    else c as int - 'A' as int + 10
  }

  predicate IsShort(e: char) {
    e == '"' || e == '\\' || e == '/' || e == 'b' || e == 'f' || e == 'n' || e == 'r' || e == 't'
  }

  predicate ValidUnit(u: Unit) {
    match u
    case Plain(c) => c != '"' && c != '\\' && c >= ' '
    case Short(e) => IsShort(e)
    case Hex(d) => |d| == 4 && forall i :: 0 <= i < 4 ==> IsHexDigit(d[i])
  }

  predicate ValidUnits(us: seq<Unit>) {
    forall i :: 0 <= i < |us| ==> ValidUnit(us[i])
  }

  function Spell(u: Unit): (s: string)
    ensures |s| >= 1
  {
    match u
    case Plain(c) => [c]
    case Short(e) => ['\\', e]
    case Hex(d) => ['\\', 'u'] + d
  }

  function SpellUnits(us: seq<Unit>): string {
    if us == [] then "" else Spell(us[0]) + SpellUnits(us[1..])
  }

  function ShortMeaning(e: char): char {
    match e
    case 'b' => BACKSPACE
    case 'f' => FORMFEED
    case 'n' => '\n'
    case 'r' => '\r'
    case 't' => '\t'
    case _ => e
  }

  function HexVal(d: string): (n: nat)
    requires ValidUnit(Hex(d))
    ensures n < 0x1_0000
  {
    HexDigitVal(d[0]) * 4096 + HexDigitVal(d[1]) * 256 + HexDigitVal(d[2]) * 16 + HexDigitVal(d[3])
  }

  predicate IsHigh(n: nat) { 0xD800 <= n < 0xDC00 }

  predicate IsLow(n: nat) { 0xDC00 <= n < 0xE000 }

  function ScalarOf(n: nat): char
    requires n < 0x11_0000
  {
    if IsHigh(n) || IsLow(n) then REPLACEMENT else n as char
  }

  /** The text a literal denotes: a high surrogate escape followed at once by a low one is one
      character, any other surrogate escape is U+FFFD. */
  function Meaning(us: seq<Unit>): string
    requires ValidUnits(us)
  {
    if us == [] then ""
    else
      match us[0]
      case Plain(c) => [c] + Meaning(us[1..])
      case Short(e) => [ShortMeaning(e)] + Meaning(us[1..])
      case Hex(d) =>
        if IsHigh(HexVal(d)) && |us| > 1 && us[1].Hex? && IsLow(HexVal(us[1].digits)) then
          [ScalarOf(0x1_0000 + (HexVal(d) - 0xD800) * 0x400 + (HexVal(us[1].digits) - 0xDC00))] + Meaning(us[2..])
        else
          [ScalarOf(HexVal(d))] + Meaning(us[1..])
  }

  /** The next piece of a literal that has not reached its closing quote. */
  function NextUnit(s: string): (r: Parse<Unit>)
    requires s != "" && s[0] != '"'
    ensures r.Done? ==> ValidUnit(r.value) && s == Spell(r.value) + r.rest && |r.rest| < |s|
  {
    if s[0] != '\\' then
      if s[0] < ' ' then Fail else Done(Plain(s[0]), s[1..])
    else if |s| >= 6 && s[1] == 'u' && ValidUnit(Hex(s[2..6])) then Done(Hex(s[2..6]), s[6..])
    else if |s| >= 2 && IsShort(s[1]) then Done(Short(s[1]), s[2..])
    else Fail
  }

  lemma NextSpelled(u: Unit, k: string)
    requires ValidUnit(u)
    ensures Spell(u)[0] != '"' && NextUnit(Spell(u) + k) == Done(u, k)
  {
    var s := Spell(u) + k;
    match u
    case Plain(c) => assert s[1..] == k;
    case Short(e) => assert s[1] == e && s[2..] == k;
    case Hex(d) => assert s[1] == 'u' && s[2..6] == d && s[6..] == k;
  }

  /** Reads the pieces up to the closing quote; s starts just after the opening one. */
  function LexUnits(s: string): (r: Parse<seq<Unit>>)
    ensures r.Done? ==> |r.rest| < |s| && ValidUnits(r.value)
    decreases |s|
  {
    if s == "" then Fail
    else if s[0] == '"' then Done([], s[1..])
    else
      match NextUnit(s)
      case Fail => Fail
      case Done(u, t) =>
        match LexUnits(t)
        case Fail => Fail
        case Done(us, rest) => Done([u] + us, rest)
  }

  lemma AppendAssoc(a: string, b: string, c: string, d: string)
    ensures a + (b + c + d) == a + b + c + d
  {
  }

  lemma {:induction false} LexUnitsSpells(s: string)
    requires LexUnits(s).Done?
    ensures s == SpellUnits(LexUnits(s).value) + "\"" + LexUnits(s).rest
    decreases |s|
  {
    if s[0] == '"' {
      assert s == "" + "\"" + s[1..];
    } else {
      var u, t := NextUnit(s).value, NextUnit(s).rest;
      LexUnitsSpells(t);
      var us, rest := LexUnits(t).value, LexUnits(t).rest;
      AppendAssoc(Spell(u), SpellUnits(us), "\"", rest);
      assert ([u] + us)[1..] == us;
    }
  }

  lemma {:induction false} LexSpelled(us: seq<Unit>, k: string)
    requires ValidUnits(us)
    ensures LexUnits(SpellUnits(us) + "\"" + k) == Done(us, k)
  {
    var s := SpellUnits(us) + "\"" + k;
    if us == [] {
      assert s == ['"'] + k;
    } else {
      var tail := SpellUnits(us[1..]) + "\"" + k;
      LexSpelled(us[1..], k);
      assert s == Spell(us[0]) + tail;
      NextSpelled(us[0], tail);
      assert s[0] == Spell(us[0])[0];
      assert us == [us[0]] + us[1..];
    }
  }

  /** json.Marshal's choice of escape: short forms where JSON has them, a unicode escape for
      other control characters, for the three HTML characters and for U+2028 and U+2029. */
  function UnitOf(c: char): (u: Unit)
    ensures ValidUnit(u)
  {
    if c == '"' || c == '\\' then Short(c)
    else if c == BACKSPACE then Short('b')
    else if c == FORMFEED then Short('f')
    else if c == '\n' then Short('n')
    else if c == '\r' then Short('r')
    else if c == '\t' then Short('t')
    else if c < ' ' || c == '<' || c == '>' || c == '&' then
      Hex("00" + [HexDigit(c as int / 16), HexDigit(c as int % 16)])
    else if c == 0x2028 as char || c == 0x2029 as char then Hex("202" + [HexDigit(c as int % 16)])
    else Plain(c)
  }

  function HexDigit(n: nat): (c: char)
    requires n < 16
    ensures IsHexDigit(c) && HexDigitVal(c) == n
  {
    if n < 10 then (n + '0' as int) as char else (n - 10 + 'a' as int) as char
  }

  function UnitsOf(s: string): (us: seq<Unit>)
    ensures ValidUnits(us)
  {
    if s == "" then [] else [UnitOf(s[0])] + UnitsOf(s[1..])
  }

  /** Each chosen escape denotes its character, and none of them is a surrogate. */
  lemma UnitMeans(c: char)
    ensures UnitOf(c).Hex? ==> HexVal(UnitOf(c).digits) == c as int
    ensures UnitOf(c).Short? ==> ShortMeaning(UnitOf(c).e) == c
    ensures UnitOf(c).Plain? ==> UnitOf(c).c == c
  {
  }

  lemma {:induction false} UnitsMean(s: string)
    ensures Meaning(UnitsOf(s)) == s
  {
    if s != "" {
      var us := UnitsOf(s);
      assert us[0] == UnitOf(s[0]) && us[1..] == UnitsOf(s[1..]);
      UnitsMean(s[1..]);
      UnitMeans(s[0]);
      assert s == [s[0]] + s[1..];
      assert Meaning(us) == [s[0]] + Meaning(us[1..]);
    }
  }

  // ---------------------------------------------------------------- number literals

  /** The grammar of section 6: an optional minus, an integer part with no leading zero, an
      optional fraction and an optional exponent. */
  datatype Num = Num(neg: bool, int_: string, frac: Option<string>, exp: Option<Exponent>)
  datatype Exponent = Exponent(mark: char, sign: string, digits: string)

  predicate IsDigit(c: char) { '0' <= c <= '9' }

  predicate AllDigits(s: string) {
    forall i :: 0 <= i < |s| ==> IsDigit(s[i])
  }

  predicate ValidNum(n: Num) {
    && n.int_ != "" && AllDigits(n.int_) && (n.int_[0] == '0' ==> n.int_ == "0")
    && (n.frac.Some? ==> n.frac.value != "" && AllDigits(n.frac.value))
    && (n.exp.Some? ==> ValidExponent(n.exp.value))
  }

  predicate ValidExponent(e: Exponent) {
    && (e.mark == 'e' || e.mark == 'E')
    && (e.sign == "" || e.sign == "+" || e.sign == "-")
    && e.digits != "" && AllDigits(e.digits)
  }

  function SpellFrac(f: Option<string>): string {
    if f.None? then "" else "." + f.value
  }

  function SpellExp(e: Option<Exponent>): string {
    if e.None? then "" else [e.value.mark] + e.value.sign + e.value.digits
  }

  function SpellUnsigned(n: Num): string {
    n.int_ + (SpellFrac(n.frac) + SpellExp(n.exp))
  }

  function SpellNum(n: Num): string {
    if n.neg then "-" + SpellUnsigned(n) else SpellUnsigned(n)
  }

  /** A literal the number grammar derives. */
  ghost predicate IsNumber(lit: string) {
    exists n :: ValidNum(n) && SpellNum(n) == lit
  }

  function LexDigits(s: string): (r: (string, string))
    ensures s == r.0 + r.1 && AllDigits(r.0)
    ensures r.1 == "" || !IsDigit(r.1[0])
    ensures s != "" && IsDigit(s[0]) ==> r.0 != ""
  {
    if s == "" || !IsDigit(s[0]) then ("", s)
    else
      var (d, t) := LexDigits(s[1..]);
      ([s[0]] + d, t)
  }

  lemma {:induction false} DigitsLexed(d: string, k: string)
    requires AllDigits(d)
    requires k == "" || !IsDigit(k[0])
    ensures LexDigits(d + k) == (d, k)
  {
    if d == "" {
      assert d + k == k;
    } else {
      assert (d + k)[1..] == d[1..] + k;
      DigitsLexed(d[1..], k);
      assert d == [d[0]] + d[1..];
    }
  }

  function LexInt(s: string): (r: Parse<string>)
    ensures r.Done? ==> s == r.value + r.rest && r.value != ""
                        && AllDigits(r.value) && (r.value[0] == '0' ==> r.value == "0")
  {
    if s == "" || !IsDigit(s[0]) then Fail
    else if s[0] == '0' then Done("0", s[1..])
    else var (d, t) := LexDigits(s); Done(d, t)
  }

  function LexFrac(s: string): (r: Parse<Option<string>>)
    ensures r.Done? ==> |r.rest| <= |s| && (r.value.Some? ==> r.value.value != "" && AllDigits(r.value.value))
  {
    if s == "" || s[0] != '.' then Done(None, s)
    else
      var (d, t) := LexDigits(s[1..]);
      if d == "" then Fail else Done(Some(d), t)
  }

  function LexSign(s: string): (r: (string, string))
    ensures s == r.0 + r.1 && (r.0 == "" || r.0 == "+" || r.0 == "-")
  {
    if s != "" && (s[0] == '+' || s[0] == '-') then (s[..1], s[1..]) else ("", s)
  }

  function LexExp(s: string): (r: Parse<Option<Exponent>>)
    ensures r.Done? ==> |r.rest| <= |s| && (r.value.Some? ==> ValidExponent(r.value.value))
  {
    if s == "" || (s[0] != 'e' && s[0] != 'E') then Done(None, s)
    else
      var (sign, t) := LexSign(s[1..]);
      var (d, u) := LexDigits(t);
      if d == "" then Fail else Done(Some(Exponent(s[0], sign, d)), u)
  }

  /** The scanner's greedy reading: once a dot or an exponent mark is seen, digits must follow. */
  function LexNum(s: string): (r: Parse<Num>)
    ensures r.Done? ==> ValidNum(r.value) && |r.rest| < |s|
  {
    if s != "" && s[0] == '-' then LexUnsigned(true, s[1..]) else LexUnsigned(false, s)
  }

  function LexUnsigned(neg: bool, s: string): (r: Parse<Num>)
    ensures r.Done? ==> r.value.neg == neg && ValidNum(r.value) && |r.rest| < |s|
  {
    match LexInt(s)
    case Fail => Fail
    case Done(i, t) =>
      match LexFrac(t)
      case Fail => Fail
      case Done(f, u) =>
        match LexExp(u)
        case Fail => Fail
        case Done(e, rest) => Done(Num(neg, i, f, e), rest)
  }

  lemma Cons(c: char, a: string, b: string, s: string)
    requires s != "" && s[0] == c && s[1..] == a + b
    ensures s == [c] + a + b
  {
  }

  lemma FracSpells(s: string)
    requires LexFrac(s).Done?
    ensures s == SpellFrac(LexFrac(s).value) + LexFrac(s).rest
  {
    if LexFrac(s).value.Some? {
      Cons('.', LexFrac(s).value.value, LexFrac(s).rest, s);
    } else {
      assert "" + s == s;
    }
  }

  lemma ExpSpells(s: string)
    requires LexExp(s).Done?
    ensures s == SpellExp(LexExp(s).value) + LexExp(s).rest
  {
    if LexExp(s).value.Some? {
      var e, rest := LexExp(s).value.value, LexExp(s).rest;
      assert e.sign + (e.digits + rest) == e.sign + e.digits + rest;
      Cons(e.mark, e.sign + e.digits, rest, s);
      assert [e.mark] + (e.sign + e.digits) == [e.mark] + e.sign + e.digits;
    } else {
      assert "" + s == s;
    }
  }

  lemma LexNumSpells(s: string)
    requires LexNum(s).Done?
    ensures s == SpellNum(LexNum(s).value) + LexNum(s).rest
  {
    var n, rest := LexNum(s).value, LexNum(s).rest;
    var s1 := if n.neg then s[1..] else s;
    var t := LexInt(s1).rest;
    FracSpells(t);
    ExpSpells(LexFrac(t).rest);
    Assoc(n.int_, SpellFrac(n.frac), SpellExp(n.exp), rest);
    if n.neg {
      Cons('-', SpellUnsigned(n), rest, s);
    }
  }

  lemma Assoc(a: string, b: string, c: string, d: string)
    ensures a + (b + (c + d)) == a + (b + c) + d
  {
    assert b + (c + d) == (b + c) + d;
  }

  /** The text begins with something the number could go on with. */
  predicate Extends(n: Num, k: string) {
    && k != ""
    && ((IsDigit(k[0]) && (n.int_ != "0" || n.frac.Some? || n.exp.Some?))
        || (k[0] == '.' && n.frac.None? && n.exp.None?)
        || ((k[0] == 'e' || k[0] == 'E') && n.exp.None?))
  }

  lemma SignLexed(sign: string, t: string)
    requires sign == "" || sign == "+" || sign == "-"
    requires t != "" && IsDigit(t[0])
    ensures LexSign(sign + t) == (sign, t)
  {
    if sign == "" {
      assert sign + t == t;
    }
  }

  lemma ExpLexed(e: Option<Exponent>, k: string)
    requires e.Some? ==> ValidExponent(e.value)
    requires k == "" || if e.Some? then !IsDigit(k[0]) else k[0] != 'e' && k[0] != 'E'
    ensures LexExp(SpellExp(e) + k) == Done(e, k)
  {
    if e.Some? {
      var x := e.value;
      var tail := x.sign + (x.digits + k);
      assert SpellExp(e) + k == [x.mark] + tail;
      assert ([x.mark] + tail)[1..] == tail;
      assert (x.digits + k)[0] == x.digits[0];
      SignLexed(x.sign, x.digits + k);
      DigitsLexed(x.digits, k);
    } else {
      assert "" + k == k;
    }
  }

  lemma FracLexed(f: Option<string>, t: string)
    requires f.Some? ==> f.value != "" && AllDigits(f.value)
    requires t == "" || if f.Some? then !IsDigit(t[0]) else t[0] != '.'
    ensures LexFrac(SpellFrac(f) + t) == Done(f, t)
  {
    if f.Some? {
      assert SpellFrac(f) + t == ['.'] + (f.value + t);
      assert (['.'] + (f.value + t))[1..] == f.value + t;
      DigitsLexed(f.value, t);
    } else {
      assert "" + t == t;
    }
  }

  lemma IntLexed(i: string, t: string)
    requires i != "" && AllDigits(i) && (i[0] == '0' ==> i == "0")
    requires t == "" || i == "0" || !IsDigit(t[0])
    ensures LexInt(i + t) == Done(i, t)
  {
    assert (i + t)[0] == i[0];
    if i[0] == '0' {
      assert (i + t)[1..] == t;
    } else {
      DigitsLexed(i, t);
    }
  }

  lemma ExpHead(n: Num, k: string)
    requires ValidNum(n) && !Extends(n, k)
    ensures var t := SpellExp(n.exp) + k;
      t == "" || if n.frac.Some? then !IsDigit(t[0]) else t[0] != '.' && (n.int_ == "0" || !IsDigit(t[0]))
  {
    assert "" + k == k;
  }

  lemma FracHead(n: Num, t: string)
    requires t == "" || if n.frac.Some? then !IsDigit(t[0]) else t[0] != '.' && (n.int_ == "0" || !IsDigit(t[0]))
    ensures SpellFrac(n.frac) + t == "" || n.int_ == "0" || !IsDigit((SpellFrac(n.frac) + t)[0])
  {
    assert "" + t == t;
  }

  lemma UnsignedLexed(n: Num, k: string)
    requires ValidNum(n) && !Extends(n, k)
    ensures LexUnsigned(n.neg, SpellUnsigned(n) + k) == Done(n, k)
    ensures IsDigit((SpellUnsigned(n) + k)[0])
  {
    var t := SpellExp(n.exp) + k;
    ExpHead(n, k);
    FracHead(n, t);
    Assoc(n.int_, SpellFrac(n.frac), SpellExp(n.exp), k);
    assert (SpellUnsigned(n) + k)[0] == n.int_[0];
    IntLexed(n.int_, SpellFrac(n.frac) + t);
    FracLexed(n.frac, t);
    ExpLexed(n.exp, k);
  }

  lemma ConsAssoc(c: char, a: string, b: string)
    ensures [c] + a + b == [c] + (a + b)
  {
  }

  lemma HeadTail(c: char, k: string)
    ensures ([c] + k)[0] == c && ([c] + k)[1..] == k
  {
  }

  lemma NumLexed(n: Num, k: string)
    requires ValidNum(n) && !Extends(n, k)
    ensures LexNum(SpellNum(n) + k) == Done(n, k)
  {
    var u := SpellUnsigned(n) + k;
    UnsignedLexed(n, k);
    if n.neg {
      HeadTail('-', u);
      ConsAssoc('-', SpellUnsigned(n), k);
    }
  }

  lemma IntMaximal(s: string)
    requires LexInt(s).Done?
    ensures var r := LexInt(s); r.rest == "" || r.value == "0" || !IsDigit(r.rest[0])
  {
  }

  lemma FracMaximal(s: string)
    requires LexFrac(s).Done?
    ensures var r := LexFrac(s);
      if r.value.Some? then r.rest == "" || !IsDigit(r.rest[0]) else r.rest == s && (s == "" || s[0] != '.')
  {
  }

  lemma ExpMaximal(s: string)
    requires LexExp(s).Done?
    ensures var r := LexExp(s);
      if r.value.Some? then r.rest == "" || !IsDigit(r.rest[0])
      else r.rest == s && (s == "" || (s[0] != 'e' && s[0] != 'E'))
  {
  }

  /** The scanner reads as much as it can. */
  lemma LexMaximal(s: string)
    requires LexNum(s).Done?
    ensures !Extends(LexNum(s).value, LexNum(s).rest)
  {
    var u := if s[0] == '-' then s[1..] else s;
    IntMaximal(u);
    FracMaximal(LexInt(u).rest);
    ExpMaximal(LexFrac(LexInt(u).rest).rest);
  }

  lemma NumSpelledOnce(m: Num, n: Num)
    requires ValidNum(m) && ValidNum(n) && SpellNum(m) == SpellNum(n)
    ensures m == n
  {
    NumLexed(m, "");
    NumLexed(n, "");
  }
}
