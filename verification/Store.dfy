/** The persisted record of the damaged-store axis as values: lookups, edits, the revision that
    binds the state, and what a run of edits and saves does to the file. */
module Store {
  import opened Text
  import opened Json
  import opened JsonRoundTrip
  import opened JsonIndent

  const STATE_PREFIX: string := "gentle-ai.review-state/v2" + [0 as char]

  // ---------------------------------------------------------------- lookup and replacement

  /** The first member with the key, or -1. */
  function FirstMember(ms: seq<Member>, key: string): (i: int)
    ensures -1 <= i < |ms|
    ensures i >= 0 ==> ms[i].key == key
    ensures forall j :: 0 <= j < |ms| && ms[j].key == key ==> 0 <= i <= j
  {
    if ms == [] then -1
    else if ms[0].key == key then 0
    else
      var i := FirstMember(ms[1..], key);
      if i < 0 then -1 else i + 1
  }

  /** orderedMember. */
  function MemberOf(v: Value, key: string): Option<Value> {
    if v.Object? && FirstMember(v.members, key) >= 0
    then Some(v.members[FirstMember(v.members, key)].value) else None
  }

  /** orderedString. */
  function StringOf(v: Value, key: string): Option<string> {
    match MemberOf(v, key)
    case Some(Str(s)) => Some(s)
    case _ => None
  }

  /** setOrderedMember: replaces the value of the first member with the key. */
  function SetMember(v: Value, key: string, next: Value): Option<Value> {
    if v.Object? && FirstMember(v.members, key) >= 0
    then Some(Object(v.members[FirstMember(v.members, key) := Member(key, next)])) else None
  }

  /** setRecoveryString on the state it is made through. */
  function EditState(state: Value, key: string, value: string): Option<Value> {
    match MemberOf(state, "recovery")
    case None => None
    case Some(recovery) =>
      match SetMember(recovery, key, Str(value))
      case None => None
      case Some(recovery') => SetMember(state, "recovery", recovery')
  }

  /** setRecoveryString on the whole record, as root shows it. */
  function EditRecovery(root: Value, key: string, value: string): Option<Value> {
    match MemberOf(root, "state")
    case None => None
    case Some(state) =>
      match EditState(state, key, value)
      case None => None
      case Some(state') => SetMember(root, "state", state')
  }

  // ---------------------------------------------------------------- an edit is local

  /** The subtree reached by member and item positions. */
  function At(v: Value, path: seq<nat>): Option<Value> {
    if path == [] then Some(v)
    else if v.Object? && path[0] < |v.members| then At(v.members[path[0]].value, path[1..])
    else if v.Array? && path[0] < |v.items| then At(v.items[path[0]], path[1..])
    else None
  }

  /** A replacement at one position is seen from every path through it, and from no other path. */
  lemma SetMemberAt(v: Value, key: string, next: Value, path: seq<nat>)
    requires SetMember(v, key, next).Some?
    ensures var i := FirstMember(v.members, key);
      path != [] ==>
        At(SetMember(v, key, next).value, path) == if path[0] == i then At(next, path[1..]) else At(v, path)
  {
  }

  /** The position an edit of the recovery provenance writes to. */
  function EditPath(root: Value, key: string): seq<nat>
    requires EditRecovery(root, key, "").Some?
  {
    var state := MemberOf(root, "state").value;
    var recovery := MemberOf(state, "recovery").value;
    [FirstMember(root.members, "state"), FirstMember(state.members, "recovery"), FirstMember(recovery.members, key)]
  }

  /** An edit writes the new string at its position, and every subtree that neither contains nor
      lies inside that position is what it was: later duplicates of the key included. */
  lemma EditIsLocal(root: Value, key: string, value: string, path: seq<nat>)
    requires EditRecovery(root, key, value).Some?
    ensures var edited := EditRecovery(root, key, value).value;
      && At(edited, EditPath(root, key)) == Some(Str(value))
      && (!(path <= EditPath(root, key)) && !(EditPath(root, key) <= path) ==> At(edited, path) == At(root, path))
  {
    var state := MemberOf(root, "state").value;
    var recovery := MemberOf(state, "recovery").value;
    var recovery' := SetMember(recovery, key, Str(value)).value;
    var state' := SetMember(state, "recovery", recovery').value;
    var where := EditPath(root, key);
    assert where[1..] == [where[1], where[2]] && where[1..][1..] == [where[2]];
    SetMemberAt(root, "state", state', where);
    SetMemberAt(state, "recovery", recovery', where[1..]);
    SetMemberAt(recovery, key, Str(value), [where[2]]);
    assert path <= where || where <= path || (|path| > 0 && path[0] != where[0])
        || (|path| > 1 && path[1] != where[1]) || (|path| > 2 && path[2] != where[2]);
    if !(path <= where) && !(where <= path) {
      SetMemberAt(root, "state", state', path);
      if path[0] == where[0] {
        SetMemberAt(state, "recovery", recovery', path[1..]);
        if path[1] == where[1] {
          SetMemberAt(recovery, key, Str(value), path[1..][1..]);
        }
      }
    }
  }

  // ---------------------------------------------------------------- the revision, loading and saving

  /** deriveRevision; sha maps the hashed text to the hex of its SHA-256. */
  function Revision(sha: string -> string, state: Value): string {
    "sha256:" + sha(STATE_PREFIX + Encode(state))
  }

  /** loadStoreRecord on the text of the file. */
  function Load(sha: string -> string, payload: string): Option<Value> {
    match Decode(payload)
    case None => None
    case Some(root) =>
      if MemberOf(root, "state").None? || StringOf(root, "revision").None? then None
      else if Revision(sha, MemberOf(root, "state").value) != StringOf(root, "revision").value then None
      else Some(root)
  }

  /** A record in memory: loaded, or reached from a loaded one by edits and saves. */
  ghost predicate Record(root: Value) {
    WellFormed(root) && MemberOf(root, "state").Some? && MemberOf(root, "revision").Some?
  }

  /** The tree save writes: the record with its revision derived afresh. */
  function Stamp(sha: string -> string, root: Value): Option<Value>
    requires MemberOf(root, "state").Some?
  {
    SetMember(root, "revision", Str(Revision(sha, MemberOf(root, "state").value)))
  }

  /** The bytes save writes. */
  function FileText(root: Value): Option<string> {
    Terminated(Indent(Encode(root)))
  }

  function Terminated(text: Option<string>): Option<string> {
    match text
    case None => None
    case Some(t) => Some(t + "\n")
  }

  lemma {:induction false} ReplacedWellFormed(ms: seq<Member>, i: nat, m: Member)
    requires WellFormedMembers(ms) && i < |ms| && WellFormed(m.value)
    ensures WellFormedMembers(ms[i := m])
  {
    var out := ms[i := m];
    if i == 0 {
      assert out[1..] == ms[1..];
    } else {
      ReplacedWellFormed(ms[1..], i - 1, m);
      assert out[1..] == ms[1..][i - 1 := m];
    }
  }

  lemma {:induction false} MemberWellFormed(ms: seq<Member>, i: nat)
    requires WellFormedMembers(ms) && i < |ms|
    ensures WellFormed(ms[i].value)
  {
    if i > 0 {
      MemberWellFormed(ms[1..], i - 1);
    }
  }

  lemma {:induction false} FirstMemberKept(ms: seq<Member>, i: nat, next: Value, key: string)
    requires i < |ms|
    ensures FirstMember(ms[i := Member(ms[i].key, next)], key) == FirstMember(ms, key)
  {
    var out := ms[i := Member(ms[i].key, next)];
    if i == 0 {
      assert out[1..] == ms[1..];
    } else {
      FirstMemberKept(ms[1..], i - 1, next, key);
      assert out[1..] == ms[1..][i - 1 := Member(ms[i].key, next)];
    }
  }

  /** Replacing one key keeps a record a record and leaves every other key's member alone. */
  lemma SetMemberKeeps(v: Value, key: string, next: Value, other: string)
    requires SetMember(v, key, next).Some? && WellFormed(v) && WellFormed(next)
    ensures WellFormed(SetMember(v, key, next).value)
    ensures MemberOf(SetMember(v, key, next).value, other) == if other == key then Some(next) else MemberOf(v, other)
  {
    var i := FirstMember(v.members, key);
    ReplacedWellFormed(v.members, i, Member(key, next));
    FirstMemberKept(v.members, i, next, other);
  }

  lemma EditKeepsRecord(root: Value, key: string, value: string)
    requires Record(root) && EditRecovery(root, key, value).Some?
    ensures Record(EditRecovery(root, key, value).value)
    ensures MemberOf(EditRecovery(root, key, value).value, "revision") == MemberOf(root, "revision")
  {
    var state := MemberOf(root, "state").value;
    var recovery := MemberOf(state, "recovery").value;
    MemberWellFormed(root.members, FirstMember(root.members, "state"));
    MemberWellFormed(state.members, FirstMember(state.members, "recovery"));
    SetMemberKeeps(recovery, key, Str(value), key);
    var recovery' := SetMember(recovery, key, Str(value)).value;
    SetMemberKeeps(state, "recovery", recovery', key);
    var state' := SetMember(state, "recovery", recovery').value;
    SetMemberKeeps(root, "state", state', "state");
    SetMemberKeeps(root, "state", state', "revision");
  }

  lemma LoadedIsRecord(sha: string -> string, payload: string)
    requires Load(sha, payload).Some?
    ensures Record(Load(sha, payload).value)
  {
    DecodedWellFormed(payload);
  }

  /** Saving a record writes text that loads as the stamped tree, unless the tree nests more than
      10000 deep: then save fails and writes nothing. The state is not changed by stamping. */
  lemma SaveThenLoad(sha: string -> string, root: Value)
    requires Record(root)
    ensures Stamp(sha, root).Some? && Record(Stamp(sha, root).value)
    ensures var stamped := Stamp(sha, root).value;
      && MemberOf(stamped, "state") == MemberOf(root, "state")
      && (FileText(stamped).Some? <==> Height(stamped) <= MAX_NESTING)
      && (FileText(stamped).Some? ==> Load(sha, FileText(stamped).value) == Some(stamped))
  {
    var revision := Str(Revision(sha, MemberOf(root, "state").value));
    SetMemberKeeps(root, "revision", revision, "state");
    SetMemberKeeps(root, "revision", revision, "revision");
    WrittenLoads(sha, Stamp(sha, root).value);
  }

  /** The indented text of a record whose revision is that of its state. */
  lemma WrittenLoads(sha: string -> string, root: Value)
    requires Record(root) && MemberOf(root, "revision") == Some(Str(Revision(sha, MemberOf(root, "state").value)))
    ensures FileText(root).Some? <==> Height(root) <= MAX_NESTING
    ensures FileText(root).Some? ==> Load(sha, FileText(root).value) == Some(root)
  {
    IndentedDecodes(root, "\n");
  }

  // ---------------------------------------------------------------- a record too deep to save

  /** So many arrays, each inside the next. */
  function Nest(n: nat): Value {
    if n == 0 then Null else Array([Nest(n - 1)])
  }

  lemma {:induction false} NestHeight(n: nat)
    ensures Height(Nest(n)) == n && WellFormed(Nest(n))
  {
    if n > 0 {
      NestHeight(n - 1);
      var items := [Nest(n - 1)];
      assert items[1..] == [];
      assert HeightItems(items) == n - 1 && WellFormedItems(items);
    }
  }

  /** A record whose state is the nest, with the revision that state has. */
  function DeepRecord(sha: string -> string): Value {
    var state := Nest(MAX_NESTING);
    Object(Pair(Str(Revision(sha, state)), state))
  }

  function Pair(r: Value, s: Value): seq<Member> {
    [Member("revision", r), Member("state", s)]
  }

  lemma PairLookup(r: Value, s: Value)
    ensures FirstMember(Pair(r, s), "revision") == 0 && FirstMember(Pair(r, s), "state") == 1
    ensures Pair(r, s)[0 := Member("revision", r)] == Pair(r, s)
  {
    assert Pair(r, s)[1..] == [Member("state", s)];
    assert |"revision"| != |"state"|;
  }

  lemma PairHeight(r: Value, s: Value)
    ensures HeightMembers(Pair(r, s)) == Max(Height(r), Height(s))
    ensures WellFormed(r) && WellFormed(s) ==> WellFormedMembers(Pair(r, s))
  {
    var tail := Pair(r, s)[1..];
    assert tail == [Member("state", s)] && tail[1..] == [];
    assert HeightMembers(tail) == Height(s);
    assert WellFormedMembers(tail) == WellFormed(s);
  }

  /** The file of this record loads, and a save that follows fails: the record has one level more
      than json.Indent allows. */
  lemma LoadsAndCannotBeSaved(sha: string -> string)
    ensures Load(sha, Encode(DeepRecord(sha))) == Some(DeepRecord(sha))
    ensures Stamp(sha, DeepRecord(sha)) == Some(DeepRecord(sha)) && FileText(DeepRecord(sha)) == None
  {
    var state := Nest(MAX_NESTING);
    DeepIsRecord(sha, state);
    DeepFails(sha, DeepRecord(sha), state);
  }

  lemma DeepFails(sha: string -> string, root: Value, state: Value)
    requires WellFormed(root) && Height(root) > MAX_NESTING
    requires MemberOf(root, "state") == Some(state) && MemberOf(root, "revision") == Some(Str(Revision(sha, state)))
    requires SetMember(root, "revision", Str(Revision(sha, state))) == Some(root)
    ensures Load(sha, Encode(root)) == Some(root) && Stamp(sha, root) == Some(root) && FileText(root) == None
  {
    SaveThenLoad(sha, root);
    LoadsAsEncoded(sha, root, state);
  }

  lemma LoadsAsEncoded(sha: string -> string, root: Value, state: Value)
    requires WellFormed(root) && MemberOf(root, "state") == Some(state)
             && MemberOf(root, "revision") == Some(Str(Revision(sha, state)))
    ensures Load(sha, Encode(root)) == Some(root)
  {
    EncodeThenDecode(root);
  }

  lemma DeepIsRecord(sha: string -> string, state: Value)
    requires state == Nest(MAX_NESTING)
    ensures var r := Str(Revision(sha, state)); var root := Object(Pair(r, state));
      && WellFormed(root) && Height(root) > MAX_NESTING
      && MemberOf(root, "state") == Some(state) && MemberOf(root, "revision") == Some(r)
      && SetMember(root, "revision", r) == Some(root)
  {
    NestHeight(MAX_NESTING);
    PairLookup(Str(Revision(sha, state)), state);
    PairHeight(Str(Revision(sha, state)), state);
  }

  /** A stale revision is refused: two loadable files that record the same revision hold the
      same state, or two different hashed texts that sha does not tell apart. */
  lemma RevisionBindsState(sha: string -> string, p: string, q: string)
    requires Load(sha, p).Some? && Load(sha, q).Some?
    requires StringOf(Load(sha, p).value, "revision") == StringOf(Load(sha, q).value, "revision")
    ensures var s, t := MemberOf(Load(sha, p).value, "state").value, MemberOf(Load(sha, q).value, "state").value;
      s == t || (STATE_PREFIX + Encode(s) != STATE_PREFIX + Encode(t)
                 && sha(STATE_PREFIX + Encode(s)) == sha(STATE_PREFIX + Encode(t)))
  {
    var root, other := Load(sha, p).value, Load(sha, q).value;
    LoadedIsRecord(sha, p);
    LoadedIsRecord(sha, q);
    MemberWellFormed(root.members, FirstMember(root.members, "state"));
    MemberWellFormed(other.members, FirstMember(other.members, "state"));
    var s, t := MemberOf(root, "state").value, MemberOf(other, "state").value;
    var hs, ht := sha(STATE_PREFIX + Encode(s)), sha(STATE_PREFIX + Encode(t));
    assert ("sha256:" + hs)[7..] == hs && ("sha256:" + ht)[7..] == ht;
    if STATE_PREFIX + Encode(s) == STATE_PREFIX + Encode(t) {
      assert (STATE_PREFIX + Encode(s))[|STATE_PREFIX|..] == Encode(s);
      assert (STATE_PREFIX + Encode(t))[|STATE_PREFIX|..] == Encode(t);
      EncodeInjective(s, t);
    }
  }

  // ---------------------------------------------------------------- runs

  datatype Op = Edit(key: string, value: string) | Save

  /** The record in memory and the text of its file. */
  datatype Session = Session(root: Value, file: string)

  function Step(sha: string -> string, s: Session, op: Op): Session
    requires MemberOf(s.root, "state").Some?
  {
    match op
    case Edit(key, value) =>
      (match EditRecovery(s.root, key, value)
       case None => s
       case Some(root) => s.(root := root))
    case Save =>
      match Stamp(sha, s.root)
      case None => s
      case Some(root) =>
        match FileText(root)
        case None => s.(root := root)
        case Some(text) => Session(root, text)
  }

  ghost predicate Reaches(sha: string -> string, s: Session, ops: seq<Op>, t: Session)
    decreases |ops|
  {
    if ops == [] then s == t
    else MemberOf(s.root, "state").Some? && Reaches(sha, Step(sha, s, ops[0]), ops[1..], t)
  }

  /** One step keeps the file loadable, and a save that can be written leaves it in step with memory. */
  lemma StepKeeps(sha: string -> string, s: Session, op: Op)
    requires Record(s.root) && Load(sha, s.file).Some?
    ensures Record(Step(sha, s, op).root) && Load(sha, Step(sha, s, op).file).Some?
    ensures op == Save && Height(Step(sha, s, op).root) <= MAX_NESTING
            ==> Load(sha, Step(sha, s, op).file) == Some(Step(sha, s, op).root)
  {
    match op
    case Edit(key, value) =>
      if EditRecovery(s.root, key, value).Some? { EditKeepsRecord(s.root, key, value); }
    case Save => SaveThenLoad(sha, s.root);
  }

  /** Over any run of edits and saves that starts from a file that loads: the file on disk
      always loads, and right after a save it loads as exactly the record in memory or the
      record nests too deeply to be written. */
  lemma {:induction false} FileAlwaysLoads(sha: string -> string, s: Session, ops: seq<Op>, t: Session)
    requires Record(s.root) && Load(sha, s.file).Some?
    requires Reaches(sha, s, ops, t)
    ensures Record(t.root) && Load(sha, t.file).Some?
    ensures ops != [] && ops[|ops| - 1] == Save ==> Load(sha, t.file) == Some(t.root) || Height(t.root) > MAX_NESTING
    decreases |ops|
  {
    if ops != [] {
      var next := Step(sha, s, ops[0]);
      StepKeeps(sha, s, ops[0]);
      assert Reaches(sha, next, ops[1..], t);
      FileAlwaysLoads(sha, next, ops[1..], t);
      assert |ops| > 1 ==> ops[1..][|ops| - 2] == ops[|ops| - 1];
    }
  }
}
