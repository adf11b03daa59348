/** The block classifier: which invocations stopped the flow, and in which of five ways. */
module Classify {
  import opened Text
  import opened Runnable
  import opened Envelope

  /** A by-design declaration: a shape and a quote of the product's own words. */
  datatype Declaration = Declaration(shape: string, nextAction: string)

  datatype Observation = Observation(
    args: seq<string>, exitCode: int, stdout: string, stderr: string,
    stdoutCaptured: bool, stderrCaptured: bool,
    deadEnd: bool, byDesign: Option<Declaration>, selfRecovered: bool)

  datatype Class = NotABlock | SelfRecovered | InBand | OutOfBand | ByDesign | DeadEnd

  /** The text every rule reads. */
  function Emitted(o: Observation): string {
    o.stdout + "\n" + o.stderr
  }

  // ---------------------------------------------------------------- a missing surface

  predicate InClass(c: char, spaces: bool) {
    'a' <= c <= 'z' || c == (if spaces then ' ' else '-')
  }

  /** head, one or more characters of a class, then tail. */
  predicate MatchesRun(text: string, head: string, spaces: bool, tail: string) {
    exists i, j :: 0 <= i <= |text| && 0 <= j <= |text| && IsRun(text, head, spaces, tail, i, j)
  }

  predicate IsRun(text: string, head: string, spaces: bool, tail: string, i: nat, j: nat) {
    && OccursAt(text, head, i) && i + |head| < j && OccursAt(text, tail, j)
    && forall k :: i + |head| <= k < j ==> InClass(text[k], spaces)
  }

  predicate Mentions(text: string, t: string) {
    Text.Index(text, t) >= 0
  }

  /** The seven patterns, on text whose letters are folded. */
  predicate RejectsShape(text: string) {
    || MatchesRun(text, "unknown ", false, " command \"")
    || Mentions(text, "flag provided but not defined")
    || Mentions(text, "unknown flag") || Mentions(text, "unknown shorthand flag") || Mentions(text, "unknown option")
    || Mentions(text, "unrecognized flag") || Mentions(text, "unrecognized option")
    || Mentions(text, "unrecognized argument")
    || MatchesRun(text, "unexpected ", true, " argument \"")
    || MatchesRun(text, "unknown ", false, " \"--")
    || HasPrefix(text, "error: unknown command")
  }

  predicate IsUnsupported(o: Observation) {
    RejectsShape(Fold(Emitted(o)))
  }

  // ---------------------------------------------------------------- a block

  predicate SaysText(m: map<string, Go>, key: string, words: seq<string>) {
    key in m && m[key].Text? && ToLower(TrimSpace(m[key].s)) in words
  }

  predicate SaysFolded(m: map<string, Go>, key: string, word: string) {
    key in m && m[key].Text? && Fold(TrimSpace(m[key].s)) == word
  }

  const DENIALS: seq<string> := ["invalidated", "scope-changed", "deny", "denied", "stop", "blocked", "corrupted"]

  predicate Denies(m: map<string, Go>) {
    && !SaysFolded(m, "delivery", "disabled/unmanaged")
    && (|| ("allowed" in m && m["allowed"] == Truth(false))
        || SaysText(m, "result", DENIALS)
        || SaysFolded(m, "action", "stop"))
  }

  predicate IsBlock(o: Observation) {
    && !IsUnsupported(o)
    && (o.exitCode != 0 || EnvelopeDenies(o.stdout))
  }

  predicate EnvelopeDenies(stdout: string) {
    var envelope := Unmarshal(stdout);
    envelope.Some? && envelope.value.Map? && Denies(envelope.value.m)
  }

  // ---------------------------------------------------------------- declarations

  /** The closed vocabulary of shapes. */
  const SHAPES: seq<string> := ["operator-knowledge", "world-action", "human-authority"]

  /** Validate: the shape is known and the quote is not blank. */
  predicate Valid(d: Declaration) {
    d.shape in SHAPES && TrimSpace(d.nextAction) != ""
  }

  predicate Verified(d: Option<Declaration>, emitted: string) {
    d.Some? && Valid(d.value) && Mentions(emitted, d.value.nextAction)
  }

  // ---------------------------------------------------------------- the class

  predicate NamesContinuation(o: Observation) {
    NamesRunnable(Emitted(o)) || NamesOperation(o.stdout)
  }

  function Classify(o: Observation): Class {
    if !IsBlock(o) then NotABlock
    else if o.selfRecovered then SelfRecovered
    else if NamesContinuation(o) then InBand
    else if Verified(o.byDesign, Emitted(o)) then ByDesign
    else if o.deadEnd then DeadEnd
    else OutOfBand
  }

  /** Classify as the program computes it, over the searches with their loops. */
  method Assign(o: Observation) returns (c: Class)
    ensures c == Classify(o)
  {
    if !IsBlock(o) { return NotABlock; }
    if o.selfRecovered { return SelfRecovered; }
    var named := HasRunnableCommand(Emitted(o));
    if named { return InBand; }
    named := HasEnvelopeContinuation(o.stdout);
    if named { return InBand; }
    if Verified(o.byDesign, Emitted(o)) { return ByDesign; }
    if o.deadEnd { return DeadEnd; }
    c := OutOfBand;
  }

  /** The observation with both author declarations withdrawn. */
  function Erase(o: Observation): Observation {
    o.(deadEnd := false, byDesign := None)
  }

  /** What a class becomes once declarations no longer speak. */
  function Undeclared(c: Class): Class {
    if c == ByDesign || c == DeadEnd then OutOfBand else c
  }

  lemma ErasureReclassifies(o: Observation)
    ensures Classify(Erase(o)) == Undeclared(Classify(o))
    ensures IsUnsupported(Erase(o)) == IsUnsupported(o)
    ensures IsUnsupported(o) ==> Classify(o) == NotABlock
  {
  }

  /** A block is in_band exactly when one of the two streams names a runnable command on a line of
      its own, or the envelope names an operation; no declaration can outrank that. */
  lemma InBandIff(o: Observation)
    requires IsBlock(o) && !o.selfRecovered
    ensures Classify(o) == InBand <==> NamesRunnable(o.stdout) || NamesRunnable(o.stderr) || NamesOperation(o.stdout)
  {
    RunnableConcat(o.stdout, o.stderr);
  }

  /** The exemption is earned: by_design means a known shape, a quote with words in it that the
      product really printed, and no runnable command anywhere in the output. */
  lemma ByDesignIsEarned(o: Observation)
    requires Classify(o) == ByDesign
    ensures o.byDesign.Some? && o.byDesign.value.shape in SHAPES
    ensures Contains(Emitted(o), o.byDesign.value.nextAction)
    ensures exists i :: 0 <= i < |o.byDesign.value.nextAction| && !IsSpace(o.byDesign.value.nextAction[i])
    ensures !NamesRunnable(o.stdout) && !NamesRunnable(o.stderr) && !NamesOperation(o.stdout)
  {
    RunnableConcat(o.stdout, o.stderr);
    BlankTrims(o.byDesign.value.nextAction);
  }

  /** Trimming leaves nothing exactly when there is nothing but whitespace. */
  lemma {:induction false} BlankTrims(s: string)
    ensures TrimSpace(s) == "" <==> forall i :: 0 <= i < |s| ==> IsSpace(s[i])
  {
    if s != "" {
      if IsSpace(s[0]) {
        BlankTrims(s[1..]);
        assert forall i :: 1 <= i < |s| ==> s[i] == s[1..][i - 1];
      } else {
        RightKeeps(s, 0);
      }
    }
  }

  lemma {:induction false} RightKeeps(s: string, i: nat)
    requires i < |s| && !IsSpace(s[i])
    ensures TrimRight(s) != ""
  {
    if IsSpace(s[|s| - 1]) { RightKeeps(s[..|s| - 1], i); }
  }

  // ---------------------------------------------------------------- an invocation that prints nothing

  lemma SilenceIsNotRejection()
    ensures !RejectsShape(Fold("\n"))
  {
    assert Fold("\n") == "\n";
  }

  lemma SilenceNamesNothing()
    ensures !NamesRunnable("\n") && Unmarshal("") == None
  {
    assert "\n"[1..] == "" && Split("\n", '\n') == ["", ""];
    assert Matches("", 0) == [];
    assert !LineIsRunnable("");
  }

  /** An invocation that fails without a word is a block, and a dead end or out of band as the
      corpus declares. */
  lemma SilentFailure(o: Observation)
    requires o.exitCode != 0 && o.stdout == "" && o.stderr == "" && !o.selfRecovered && o.byDesign.None?
    ensures !IsUnsupported(o) && Classify(o) == if o.deadEnd then DeadEnd else OutOfBand
  {
    assert Emitted(o) == "\n";
    SilenceIsNotRejection();
    SilenceNamesNothing();
  }

  /** One that succeeds without a word went through. */
  lemma SilentSuccess(o: Observation)
    requires o.exitCode == 0 && o.stdout == "" && o.stderr == ""
    ensures !IsUnsupported(o) && Classify(o) == NotABlock
  {
    assert Emitted(o) == "\n";
    SilenceIsNotRejection();
    SilenceNamesNothing();
  }

  // ---------------------------------------------------------------- what became of a declaration

  datatype Reason =
    | Applied | DidNotBlock | CommandNamed | FlowContinued | UnknownShape | NothingQuoted | QuoteAbsent
    | OtherClass(class_: Class) | SurfaceMissing

  /** byDesignOutcome. */
  function ByDesignOutcome(o: Observation, c: Class): Option<Reason> {
    if o.byDesign.None? then None
    else if c == ByDesign then Some(Applied)
    else if c == NotABlock then Some(DidNotBlock)
    else if c == InBand then Some(CommandNamed)
    else if c == SelfRecovered then Some(FlowContinued)
    else if o.byDesign.value.shape !in SHAPES then Some(UnknownShape)
    else if TrimSpace(o.byDesign.value.nextAction) == "" then Some(NothingQuoted)
    else Some(QuoteAbsent)
  }

  /** deadEndOutcome. */
  function DeadEndOutcome(o: Observation, c: Class): Option<Reason> {
    if !o.deadEnd then None
    else if c == DeadEnd then Some(Applied)
    else if c == NotABlock then Some(DidNotBlock)
    else if c == InBand then Some(CommandNamed)
    else if c == SelfRecovered then Some(FlowContinued)
    else Some(OtherClass(c))
  }

  // ---------------------------------------------------------------- what an invocation counts for

  function TrimPrefix(s: string, p: string): string {
    if HasPrefix(s, p) then s[|p|..] else s
  }

  const AUTHORIZATION: string := "--maintainer-authorization"

  /** hasManualAuthorization: both spellings count, the first one met decides. */
  predicate HasManualAuthorization(args: seq<string>) {
    if args == [] then false
    else
      var flag := "--" + TrimPrefix(TrimPrefix(args[0], "-"), "-");
      if HasPrefix(flag, AUTHORIZATION + "=") then TrimSpace(flag[|AUTHORIZATION| + 1..]) != ""
      else if flag == AUTHORIZATION && |args| > 1 then TrimSpace(args[1]) != ""
      else HasManualAuthorization(args[1..])
  }

  /** strings.Count of a non-empty text. */
  function Count(s: string, t: string): nat
    requires t != ""
    decreases |s|
  {
    var i := Text.Index(s, t);
    if i < 0 then 0 else 1 + Count(s[i + |t|..], t)
  }

  function ConsentNotices(stderr: string): nat {
    Count(stderr, "without asking, because this session has no terminal to answer on")
    + Count(stderr, "could not read an answer, so it reviewed this change")
    + Count(stderr, "did not recognize that answer, so it reviewed this change")
  }

  /** isCaptureResult: a capture that consumes a result. */
  predicate IsCaptureResult(args: seq<string>) {
    |args| >= 2 && args[0] == "review" && args[1] == "capture-result" && "--preflight" !in args
      && "--preflight=true" !in args
  }

  /** len of the text in bytes. */
  function ByteLength(s: string): nat {
    if s == "" then 0
    else
      var n := s[0] as int;
      (if n < 0x80 then 1 else if n < 0x800 then 2 else if n < 0x10000 then 3 else 4) + ByteLength(s[1..])
  }
}
