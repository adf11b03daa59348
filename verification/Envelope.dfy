/** JSON output as json.Unmarshal delivers it, and the search for a continuation in it. */
module Envelope {
  import opened Text
  import opened Runnable
  import opened JsonLex
  import opened Json
  import JsonIndent

  // ---------------------------------------------------------------- letters

  /** strings.TrimSpace. */
  function TrimSpace(s: string): string {
    TrimRight(TrimLeft(s))
  }

  function TrimLeft(s: string): string {
    if s != "" && IsSpace(s[0]) then TrimLeft(s[1..]) else s
  }

  function TrimRight(s: string): string {
    if s != "" && IsSpace(s[|s| - 1]) then TrimRight(s[..|s| - 1]) else s
  }

  /** unicode.ToLower where its result is ASCII: the dotted capital I and the Kelvin sign are the
      two letters beyond ASCII that reach it. Every other letter keeps out of ASCII. */
  function LowerChar(c: char): char {
    if 'A' <= c <= 'Z' then (c as int + 32) as char
    else if c as int == 0x130 then 'i'
    else if c as int == 0x212A then 'k'
    else c
  }

  /** Simple case folding where its result is ASCII: the long s and the Kelvin sign fold into it. */
  function FoldChar(c: char): char {
    if 'A' <= c <= 'Z' then (c as int + 32) as char
    else if c as int == 0x17F then 's'
    else if c as int == 0x212A then 'k'
    else c
  }

  /** strings.ToLower, as far as comparing with ASCII text can tell. */
  function ToLower(s: string): string {
    seq(|s|, i requires 0 <= i < |s| => LowerChar(s[i]))
  }

  /** The text with its letters folded: strings.EqualFold and the regexp flag i compare this. */
  function Fold(s: string): string {
    seq(|s|, i requires 0 <= i < |s| => FoldChar(s[i]))
  }

  // ---------------------------------------------------------------- Go values

  /** What an interface value holds after json.Unmarshal. */
  datatype Go =
    | Nil
    | Truth(b: bool)
    | Float(lit: string)
    | Text(s: string)
    | Map(m: map<string, Go>)
    | Slice(items: seq<Go>)

  function ToGo(v: Value): Go {
    match v
    case Null => Nil
    case Bool(b) => Truth(b)
    case Number(lit) => Float(lit)
    case Str(s) => Text(s)
    case Object(ms) => Map(MapOf(ms))
    case Array(items) => Slice(SliceOf(items))
  }

  /** Of several members with one key the last stays. */
  function MapOf(ms: seq<Member>): map<string, Go> {
    if ms == [] then map[] else map[ms[0].key := ToGo(ms[0].value)] + MapOf(ms[1..])
  }

  function SliceOf(items: seq<Value>): seq<Go> {
    if items == [] then [] else [ToGo(items[0])] + SliceOf(items[1..])
  }

  lemma {:induction false} LastMemberStays(ms: seq<Member>, key: string)
    ensures key in MapOf(ms) <==> exists i :: 0 <= i < |ms| && ms[i].key == key
    ensures forall i :: 0 <= i < |ms| && ms[i].key == key && (forall j :: i < j < |ms| ==> ms[j].key != key)
              ==> MapOf(ms)[key] == ToGo(ms[i].value)
  {
    if ms != [] {
      var rest := ms[1..];
      LastMemberStays(rest, key);
      assert forall i :: 1 <= i < |ms| ==> ms[i] == rest[i - 1];
      assert forall i :: 0 <= i < |rest| ==> rest[i] == ms[i + 1];
    }
  }

  // ---------------------------------------------------------------- numbers a float64 can hold

  function Pow(b: nat, n: nat): (r: nat)
    ensures b > 0 ==> r > 0
  {
    if n == 0 then 1 else b * Pow(b, n - 1)
  }

  function DecimalValue(digits: string): nat {
    if digits == "" then 0
    else DecimalValue(digits[..|digits| - 1]) * 10 + DigitValue(digits[|digits| - 1])
  }

  function DigitValue(c: char): nat {
    if IsDigit(c) then (c as int) - ('0' as int) else 0
  }

  function Exponent10(e: Exponent): int {
    var magnitude: int := DecimalValue(e.digits);
    if e.sign == "-" then -magnitude else magnitude
  }

  /** The power of ten the significand is scaled by. */
  function Scale(n: Num): int {
    (if n.exp.Some? then Exponent10(n.exp.value) else 0) - (if n.frac.Some? then |n.frac.value| else 0)
  }

  function Significand(n: Num): nat {
    DecimalValue(n.int_ + match n.frac case None => "" case Some(f) => f)
  }

  /** The least magnitude that rounds to infinity: the largest float64 plus half a unit. */
  function Overflow(): int {
    Pow(2, 1024) - Pow(2, 970)
  }

  /** strconv.ParseFloat reports no range error. */
  predicate FitsFloat(n: Num) {
    if Scale(n) >= 0 then Significand(n) * Pow(10, Scale(n)) < Overflow()
    else Significand(n) < Overflow() * Pow(10, -Scale(n))
  }

  predicate LiteralFits(lit: string) {
    var r := LexNum(lit);
    r.Done? ==> FitsFloat(r.value)
  }

  /** Every number of the document converts, overwritten members included. */
  predicate NumbersFit(v: Value) {
    match v
    case Number(lit) => LiteralFits(lit)
    case Object(ms) => MembersFit(ms)
    case Array(items) => ItemsFit(items)
    case _ => true
  }

  predicate MembersFit(ms: seq<Member>) {
    ms == [] || (NumbersFit(ms[0].value) && MembersFit(ms[1..]))
  }

  predicate ItemsFit(items: seq<Value>) {
    items == [] || (NumbersFit(items[0]) && ItemsFit(items[1..]))
  }

  /** json.Unmarshal of the trimmed output into an interface value. */
  function Unmarshal(stdout: string): Option<Go> {
    match Decode(TrimSpace(stdout))
    case None => None
    case Some(v) => if JsonIndent.Height(v) <= JsonIndent.MAX_NESTING && NumbersFit(v) then Some(ToGo(v)) else None
  }

  // ---------------------------------------------------------------- the continuation search

  predicate IsContinuationKey(key: string) {
    key in ["next_action", "recovery_operation", "capture_operation"]
  }

  /** A string that names an operation, rather than saying there is none. */
  predicate IsOperation(g: Go) {
    g.Text? && ToLower(TrimSpace(g.s)) !in ["", "stop", "none", "n/a"]
  }

  predicate Names(parent: string, key: string, g: Go) {
    (IsContinuationKey(key) || (parent == "execute" && key == "operation")) && IsOperation(g)
  }

  /** walkContinuation as a property of the tree. */
  predicate Continues(g: Go, parent: string)
    decreases g
  {
    match g
    case Map(m) => exists key :: key in m && (Names(parent, key, m[key]) || Continues(m[key], key))
    case Slice(items) => exists i :: 0 <= i < |items| && Continues(items[i], parent)
    case _ => false
  }

  /** walkContinuation: recursion over the tree, taking the entries of a map in whatever order
      they come. */
  method WalkContinuation(g: Go, parent: string) returns (r: bool)
    ensures r <==> Continues(g, parent)
    decreases g
  {
    match g {
      case Map(m) =>
        var keys := m.Keys;
        while keys != {}
          invariant keys <= m.Keys
          invariant forall k :: k in m && k !in keys ==> !Names(parent, k, m[k]) && !Continues(m[k], k)
          decreases |keys|
        {
          var key :| key in keys;
          if Names(parent, key, m[key]) { return true; }
          var found := WalkContinuation(m[key], key);
          if found { return true; }
          keys := keys - {key};
        }
        return false;
      case Slice(items) =>
        var i := 0;
        while i < |items|
          invariant 0 <= i <= |items|
          invariant forall j :: 0 <= j < i ==> !Continues(items[j], parent)
        {
          var found := WalkContinuation(items[i], parent);
          if found { return true; }
          i := i + 1;
        }
        return false;
      case _ => return false;
    }
  }

  // ---------------------------------------------------------------- the paths it finds

  datatype Turn = Key(name: string) | Index(at: nat)

  /** The node a path leads to. */
  function Node(g: Go, path: seq<Turn>): Option<Go>
    decreases |path|
  {
    if path == [] then Some(g)
    else match (g, path[0])
      case (Map(m), Key(k)) => if k in m then Node(m[k], path[1..]) else None
      case (Slice(items), Index(i)) => if i < |items| then Node(items[i], path[1..]) else None
      case _ => None
  }

  /** The nearest key on the way, seen through arrays. */
  function Enclosing(path: seq<Turn>, outer: string): string {
    if path == [] then outer
    else match path[|path| - 1]
      case Key(k) => k
      case Index(_) => Enclosing(path[..|path| - 1], outer)
  }

  /** The path ends at a key that names a real operation. */
  predicate Leads(g: Go, outer: string, path: seq<Turn>) {
    && path != [] && path[|path| - 1].Key?
    && Node(g, path).Some?
    && Names(Enclosing(path[..|path| - 1], outer), path[|path| - 1].name, Node(g, path).value)
  }

  lemma {:induction false} EnclosingFrom(t: Turn, path: seq<Turn>, outer: string)
    ensures Enclosing([t] + path, outer) == Enclosing(path, if t.Key? then t.name else outer)
    decreases |path|
  {
    var whole := [t] + path;
    if path != [] {
      assert whole[..|whole| - 1] == [t] + path[..|path| - 1];
      EnclosingFrom(t, path[..|path| - 1], outer);
    } else {
      assert whole[..|whole| - 1] == [];
    }
  }

  /** A path found below a node is found from the node, one turn longer. */
  lemma LeadsFrom(g: Go, outer: string, t: Turn, path: seq<Turn>)
    requires path != [] && Node(g, [t]).Some?
    ensures Leads(g, outer, [t] + path) <==> Leads(Node(g, [t]).value, if t.Key? then t.name else outer, path)
  {
    var whole := [t] + path;
    assert whole[1..] == path && whole[..|whole| - 1] == [t] + path[..|path| - 1];
    assert [t][1..] == [];
    EnclosingFrom(t, path[..|path| - 1], outer);
  }

  lemma {:induction false} ContinuesLeads(g: Go, outer: string) returns (path: seq<Turn>)
    requires Continues(g, outer)
    ensures Leads(g, outer, path)
    decreases g
  {
    match g {
      case Map(m) =>
        var key :| key in m && (Names(outer, key, m[key]) || Continues(m[key], key));
        assert [Key(key)][1..] == [] && Node(g, [Key(key)]) == Some(m[key]);
        if Names(outer, key, m[key]) {
          path := [Key(key)];
          assert path[..0] == [];
        } else {
          var below := ContinuesLeads(m[key], key);
          LeadsFrom(g, outer, Key(key), below);
          path := [Key(key)] + below;
        }
      case Slice(items) =>
        var i :| 0 <= i < |items| && Continues(items[i], outer);
        assert [Index(i)][1..] == [] && Node(g, [Index(i)]) == Some(items[i]);
        var below := ContinuesLeads(items[i], outer);
        LeadsFrom(g, outer, Index(i), below);
        path := [Index(i)] + below;
    }
  }

  lemma {:induction false} LeadsContinues(g: Go, outer: string, path: seq<Turn>)
    requires Leads(g, outer, path)
    ensures Continues(g, outer)
    decreases |path|
  {
    var t, below := path[0], path[1..];
    assert path == [t] + below && [t][1..] == [];
    if below == [] {
      assert path[..0] == [];
      assert Node(g, path) == Some(g.m[t.name]);
    } else {
      LeadsFrom(g, outer, t, below);
      LeadsContinues(Node(g, [t]).value, if t.Key? then t.name else outer, below);
    }
  }

  /** The search succeeds exactly when some path reaches a meaningful string under a continuation
      key, or under "operation" whose nearest enclosing key through arrays is "execute". */
  lemma SearchIsPaths(g: Go, outer: string)
    ensures Continues(g, outer) <==> exists path :: Leads(g, outer, path)
  {
    if Continues(g, outer) {
      var path := ContinuesLeads(g, outer);
    }
    forall path | Leads(g, outer, path)
      ensures Continues(g, outer)
    {
      LeadsContinues(g, outer, path);
    }
  }

  predicate NamesOperation(stdout: string) {
    var envelope := Unmarshal(stdout);
    envelope.Some? && Continues(envelope.value, "")
  }

  /** HasEnvelopeContinuation. */
  method HasEnvelopeContinuation(stdout: string) returns (r: bool)
    ensures r <==> NamesOperation(stdout)
  {
    var envelope := Unmarshal(stdout);
    if envelope.None? { return false; }
    r := WalkContinuation(envelope.value, "");
  }
}
