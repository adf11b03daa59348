/** The metrics accumulator: counters kept online over a stream of invocations, and what they
    count about the whole stream. */
module Metrics {
  import opened Text
  import opened Classify

  /** One call of observe. */
  datatype Event = Event(step: string, o: Observation, git: Option<int>, modelRun: bool)

  datatype BlockCounts = BlockCounts(selfRecovered: nat, inBand: nat, outOfBand: nat, byDesign: nat, deadEnd: nat) {
    function Total(): nat {
      selfRecovered + inBand + outOfBand + byDesign + deadEnd
    }

    function Of(c: Class): nat {
      match c
      case SelfRecovered => selfRecovered
      case InBand => inBand
      case OutOfBand => outOfBand
      case ByDesign => byDesign
      case DeadEnd => deadEnd
      case NotABlock => 0
    }

    function Add(c: Class): BlockCounts {
      match c
      case SelfRecovered => this.(selfRecovered := selfRecovered + 1)
      case InBand => this.(inBand := inBand + 1)
      case OutOfBand => this.(outOfBand := outOfBand + 1)
      case ByDesign => this.(byDesign := byDesign + 1)
      case DeadEnd => this.(deadEnd := deadEnd + 1)
      case NotABlock => this
    }

    function AddAll(other: BlockCounts): BlockCounts {
      BlockCounts(selfRecovered + other.selfRecovered, inBand + other.inBand, outOfBand + other.outOfBand,
                  byDesign + other.byDesign, deadEnd + other.deadEnd)
    }

    /** The same blocks with every declared one counted as out of band. */
    function Undeclared(): BlockCounts {
      BlockCounts(selfRecovered, inBand, outOfBand + byDesign + deadEnd, 0, 0)
    }
  }

  const NONE: BlockCounts := BlockCounts(0, 0, 0, 0, 0)

  datatype Record = Record(
    sequence: nat, step: string, args: seq<string>, exitCode: int, stdoutBytes: nat, stderrBytes: nat,
    git: Option<int>, block: Class, byDesign: Option<Reason>, deadEnd: Option<Reason>,
    unsupported: bool, modelRun: bool, manualToken: bool, prompts: nat)

  /** The fields of the accumulator. */
  datatype State = State(
    commands: nat, prompts: nat, manualTokens: nat, modelRuns: nat,
    stderrBytes: nat, stderrCaptured: bool, stderrUncaptured: nat,
    gitCalls: int, gitObserved: bool,
    blocks: BlockCounts, recovery: int, pendingBlock: nat, pendingActive: bool,
    records: seq<Record>)

  const START: State := State(0, 0, 0, 0, 0, true, 0, 0, false, NONE, 0, 0, false, [])

  predicate IsModelRun(e: Event) {
    e.modelRun || IsCaptureResult(e.o.args)
  }

  function Surface(declared: Option<Reason>): Option<Reason> {
    if declared.Some? then Some(SurfaceMissing) else None
  }

  function StderrBytes(o: Observation): nat {
    if o.stderrCaptured then ByteLength(o.stderr) else 0
  }

  function Prompts(o: Observation): nat {
    if o.stderrCaptured then ConsentNotices(o.stderr) else 0
  }

  /** What observe writes down about an invocation before it is classified. */
  function Measured(e: Event, sequence: nat): Record {
    Record(sequence, e.step, e.o.args, e.o.exitCode, ByteLength(e.o.stdout), StderrBytes(e.o), e.git,
           NotABlock, None, None, false, IsModelRun(e), HasManualAuthorization(e.o.args), Prompts(e.o))
  }

  /** What observe writes down about an invocation that has some class. */
  function RecordAs(e: Event, c: Class, sequence: nat): Record {
    var m := Measured(e, sequence);
    if IsUnsupported(e.o) then
      m.(unsupported := true,
         byDesign := Surface(ByDesignOutcome(e.o, NotABlock)), deadEnd := Surface(DeadEndOutcome(e.o, NotABlock)))
    else m.(block := c, byDesign := ByDesignOutcome(e.o, c), deadEnd := DeadEndOutcome(e.o, c))
  }

  /** What observe writes down about one invocation. */
  function RecordOf(e: Event, sequence: nat): Record {
    RecordAs(e, Classify.Classify(e.o), sequence)
  }

  /** How an invocation bears on recovery: it blocks and someone has to act, it goes through, or
      neither. */
  datatype Kind = Blocked | Clean | Neither

  function KindOf(r: Record): Kind {
    if r.unsupported then Neither else KindOfClass(r.block)
  }

  function KindOfClass(c: Class): Kind {
    match c
    case NotABlock => Clean
    case SelfRecovered => Neither
    case _ => Blocked
  }

  /** The recovery counter and its pending block after one more invocation. */
  datatype Recovery = Recovery(spent: int, pending: nat, active: bool)

  function Recover(r: Recovery, kind: Kind, command: nat): Recovery {
    match kind
    case Blocked => if r.active then r else Recovery(r.spent, command, true)
    case Clean => if r.active then Recovery(r.spent + command - r.pending, r.pending, false) else r
    case Neither => r
  }

  function RecoveryOf(s: State): Recovery {
    Recovery(s.recovery, s.pendingBlock, s.pendingActive)
  }

  /** The counters of what was measured move by what the record says, and by whether stderr was
      captured at all. */
  function Measure1(s: State, r: Record, captured: bool): State {
    s.(commands := s.commands + 1, prompts := s.prompts + r.prompts,
       manualTokens := s.manualTokens + (if r.manualToken then 1 else 0),
       modelRuns := s.modelRuns + (if r.modelRun then 1 else 0),
       stderrBytes := s.stderrBytes + r.stderrBytes, stderrCaptured := s.stderrCaptured && captured,
       stderrUncaptured := s.stderrUncaptured + (if captured then 0 else 1),
       gitCalls := s.gitCalls + (if r.git.Some? then r.git.value else 0), gitObserved := s.gitObserved || r.git.Some?)
  }

  predicate SameMeasure(a: Record, b: Record) {
    && a.prompts == b.prompts && a.manualToken == b.manualToken && a.modelRun == b.modelRun
    && a.stderrBytes == b.stderrBytes && a.git == b.git && a.sequence == b.sequence
  }

  /** The block counters and the recovery counter after the current command. */
  function Settled(s: State, kind: Kind, c: Class): State {
    var next := Recover(RecoveryOf(s), kind, s.commands);
    s.(blocks := s.blocks.Add(c), recovery := next.spent, pendingBlock := next.pending, pendingActive := next.active)
  }

  function Tally(s: State, r: Record, captured: bool): State {
    Settled(Measure1(s, r, captured), KindOf(r), r.block)
  }

  lemma TallyByParts(s: State, measured: Record, r: Record, captured: bool)
    requires SameMeasure(measured, r) && (r.unsupported ==> r.block == NotABlock)
    ensures var m := Measure1(s, measured, captured);
      Tally(s, r, captured) == if r.unsupported then m else Settled(m, KindOfClass(r.block), r.block)
  {
  }

  /** An invocation as the accumulator sees it. */
  datatype Seen = Seen(record: Record, captured: bool)

  function SeenAs(e: Event, sequence: nat): Seen {
    Seen(RecordOf(e, sequence), e.o.stderrCaptured)
  }

  function SeenAll(events: seq<Event>): (seen: seq<Seen>)
    ensures |seen| == |events|
  {
    seq(|events|, i requires 0 <= i < |events| => SeenAs(events[i], i + 1))
  }

  /** One more invocation, and then the record of it. */
  function Append(s: State, seen: Seen): State {
    var t := Tally(s, seen.record, seen.captured);
    t.(records := t.records + [seen.record])
  }

  /** The state after each of them. */
  function Sum(seen: seq<Seen>): State {
    if seen == [] then START
    else Append(Sum(seen[..|seen| - 1]), seen[|seen| - 1])
  }

  /** The state after a whole run. */
  function Run(events: seq<Event>): State {
    Sum(SeenAll(events))
  }

  class Accumulator {
    var commands: nat
    var prompts: nat
    var manualTokens: nat
    var modelRuns: nat
    var stderrBytes: nat
    var stderrCaptured: bool
    var stderrUncaptured: nat
    var gitCalls: int
    var gitObserved: bool
    var blocks: BlockCounts
    var recoveryRoundTrips: int
    var pendingBlock: nat
    var pendingActive: bool
    var records: seq<Record>

    function Fields(): State
      reads this
    {
      State(commands, prompts, manualTokens, modelRuns, stderrBytes, stderrCaptured, stderrUncaptured,
            gitCalls, gitObserved, blocks, recoveryRoundTrips, pendingBlock, pendingActive, records)
    }

    constructor ()
      ensures Fields() == START
    {
      commands, prompts, manualTokens, modelRuns := 0, 0, 0, 0;
      stderrBytes, stderrCaptured, stderrUncaptured := 0, true, 0;
      gitCalls, gitObserved := 0, false;
      blocks, recoveryRoundTrips, pendingBlock, pendingActive := NONE, 0, 0, false;
      records := [];
    }

    /** The part of observe that reads stderr, if there is anything to read. */
    method ReadStderr(o: Observation) returns (bytes: nat, asked: nat)
      modifies this
      ensures bytes == StderrBytes(o) && asked == Prompts(o)
      ensures Fields() == old(Fields()).(
                            stderrBytes := old(stderrBytes) + bytes, prompts := old(prompts) + asked,
                            stderrCaptured := old(stderrCaptured) && o.stderrCaptured,
                            stderrUncaptured := old(stderrUncaptured) + if o.stderrCaptured then 0 else 1)
    {
      if o.stderrCaptured {
        bytes, asked := ByteLength(o.stderr), ConsentNotices(o.stderr);
        stderrBytes := stderrBytes + bytes;
        prompts := prompts + asked;
      } else {
        bytes, asked := 0, 0;
        stderrCaptured := false;
        stderrUncaptured := stderrUncaptured + 1;
      }
    }

    /** The part of observe that reads the arguments and the runner's own notes. */
    method ReadUse(manual: bool, model: bool, git: Option<int>)
      modifies this
      ensures Fields() == old(Fields()).(
                            manualTokens := old(manualTokens) + (if manual then 1 else 0),
                            modelRuns := old(modelRuns) + (if model then 1 else 0),
                            gitCalls := old(gitCalls) + (if git.Some? then git.value else 0),
                            gitObserved := old(gitObserved) || git.Some?)
    {
      if manual { manualTokens := manualTokens + 1; }
      if model { modelRuns := modelRuns + 1; }
      if git.Some? {
        gitCalls := gitCalls + git.value;
        gitObserved := true;
      }
    }

    /** The part of observe that does not depend on the class. */
    method Measure(e: Event) returns (record: Record)
      modifies this
      ensures Fields() == Measure1(old(Fields()), record, e.o.stderrCaptured)
      ensures record == Measured(e, old(commands) + 1)
    {
      commands := commands + 1;
      var bytes, asked := ReadStderr(e.o);
      var manual, model := HasManualAuthorization(e.o.args), IsModelRun(e);
      ReadUse(manual, model, e.git);
      record := Record(commands, e.step, e.o.args, e.o.exitCode, ByteLength(e.o.stdout), bytes, e.git,
                       NotABlock, None, None, false, model, manual, asked);
    }

    /** The part of observe that writes the verdict down, declarations and their fate included. */
    method Label(e: Event, measured: Record) returns (record: Record)
      requires measured == Measured(e, measured.sequence)
      ensures SameMeasure(measured, record) && (record.unsupported ==> record.block == NotABlock)
      ensures record == RecordOf(e, measured.sequence)
    {
      if IsUnsupported(e.o) {
        return measured.(unsupported := true,
                         byDesign := Surface(ByDesignOutcome(e.o, NotABlock)),
                         deadEnd := Surface(DeadEndOutcome(e.o, NotABlock)));
      }
      var class_ := Assign(e.o);
      record := measured.(block := class_, byDesign := ByDesignOutcome(e.o, class_),
                          deadEnd := DeadEndOutcome(e.o, class_));
    }

    /** The part of observe that folds the class in: a block opens a recovery if none is open, a
        command that goes through closes it. */
    method Settle(class_: Class)
      modifies this
      ensures Fields() == Settled(old(Fields()), KindOfClass(class_), class_)
    {
      if class_ != NotABlock {
        blocks := blocks.Add(class_);
        if class_ != SelfRecovered {
          if !pendingActive {
            pendingActive := true;
            pendingBlock := commands;
          }
        }
        return;
      }
      if pendingActive {
        recoveryRoundTrips := recoveryRoundTrips + commands - pendingBlock;
        pendingActive := false;
      }
    }

    /** observe: the record of one invocation, leaving the list of records to the caller. */
    method Observe(e: Event) returns (record: Record)
      modifies this
      ensures Fields() == Tally(old(Fields()), record, e.o.stderrCaptured)
      ensures record == RecordOf(e, old(commands) + 1)
    {
      var measured := Measure(e);
      record := Label(e, measured);
      TallyByParts(old(Fields()), measured, record, e.o.stderrCaptured);
      if !record.unsupported { Settle(record.block); }
    }

    /** One observation, its record appended as the runner does. */
    method ObserveNext(e: Event, ghost before: seq<Event>) returns (record: Record)
      requires Fields() == Run(before) && commands == |before|
      modifies this
      ensures Fields() == Run(before + [e]) && commands == |before| + 1
      ensures record == RecordOf(e, |before| + 1)
    {
      record := Observe(e);
      records := records + [record];
      RunStep(before, e);
    }

    method ObserveIth(events: seq<Event>, i: nat)
      requires i < |events| && Fields() == Run(events[..i]) && commands == i
      modifies this
      ensures Fields() == Run(events[..i + 1]) && commands == i + 1
    {
      PrefixNext(events, i);
      var _ := ObserveNext(events[i], events[..i]);
    }

    /** A whole run. */
    method ObserveAll(events: seq<Event>)
      requires Fields() == START
      modifies this
      ensures Fields() == Run(events)
    {
      var i := 0;
      while i < |events|
        invariant 0 <= i <= |events|
        invariant Fields() == Run(events[..i]) && commands == i
      {
        ObserveIth(events, i);
        i := i + 1;
      }
      assert events[..i] == events;
    }
  }

  lemma PrefixNext(events: seq<Event>, i: nat)
    requires i < |events|
    ensures events[..i + 1] == events[..i] + [events[i]]
  {
  }

  lemma RunStep(events: seq<Event>, e: Event)
    ensures Run(events + [e]) == Append(Run(events), SeenAs(e, |events| + 1))
  {
    SeenLast(events, e);
    var n := |events|;
    assert (SeenAll(events) + [SeenAs(e, n + 1)])[..n] == SeenAll(events);
  }

  lemma SeenLast(events: seq<Event>, e: Event)
    ensures SeenAll(events + [e]) == SeenAll(events) + [SeenAs(e, |events| + 1)]
  {
  }

  // ---------------------------------------------------------------- declarations only reclassify

  function Withdraw(e: Event): Event {
    e.(o := Erase(e.o))
  }

  function WithdrawAll(events: seq<Event>): (r: seq<Event>)
    ensures |r| == |events|
  {
    seq(|events|, i requires 0 <= i < |events| => Withdraw(events[i]))
  }

  function PlainRecord(r: Record): Record {
    r.(block := Undeclared(r.block), byDesign := None, deadEnd := None)
  }

  function PlainRecords(rs: seq<Record>): seq<Record> {
    seq(|rs|, i requires 0 <= i < |rs| => PlainRecord(rs[i]))
  }

  /** The same state with declared blocks moved to out_of_band and the outcomes left out. */
  function Plain(s: State): State {
    s.(blocks := s.blocks.Undeclared(), records := PlainRecords(s.records))
  }

  function PlainSeen(seen: seq<Seen>): (r: seq<Seen>)
    ensures |r| == |seen|
  {
    seq(|seen|, i requires 0 <= i < |seen| => Seen(PlainRecord(seen[i].record), seen[i].captured))
  }

  lemma WithdrawnRecord(e: Event, n: nat)
    ensures RecordOf(Withdraw(e), n) == PlainRecord(RecordOf(e, n))
  {
    ErasureReclassifies(e.o);
  }

  lemma WithdrawnAt(events: seq<Event>, i: nat)
    requires i < |events|
    ensures SeenAll(WithdrawAll(events))[i] == PlainSeen(SeenAll(events))[i]
  {
    WithdrawnSeenAs(events[i], i + 1);
    SeenAllAt(events, i);
    SeenAllAt(WithdrawAll(events), i);
    PlainSeenAt(SeenAll(events), i);
  }

  lemma SeenAllAt(events: seq<Event>, i: nat)
    requires i < |events|
    ensures SeenAll(events)[i] == SeenAs(events[i], i + 1)
  {
  }

  lemma PlainSeenAt(seen: seq<Seen>, i: nat)
    requires i < |seen|
    ensures PlainSeen(seen)[i] == Seen(PlainRecord(seen[i].record), seen[i].captured)
  {
  }

  lemma WithdrawnSeenAs(e: Event, n: nat)
    ensures SeenAs(Withdraw(e), n) == Seen(PlainRecord(SeenAs(e, n).record), SeenAs(e, n).captured)
  {
    WithdrawnRecord(e, n);
  }

  lemma WithdrawnSeen(events: seq<Event>)
    ensures SeenAll(WithdrawAll(events)) == PlainSeen(SeenAll(events))
  {
    forall i | 0 <= i < |events|
      ensures SeenAll(WithdrawAll(events))[i] == PlainSeen(SeenAll(events))[i]
    {
      WithdrawnAt(events, i);
    }
  }

  lemma PlainTally(s: State, r: Record, captured: bool)
    ensures Tally(Plain(s), PlainRecord(r), captured) == Plain(Tally(s, r, captured))
  {
  }

  lemma PlainAppend(s: State, last: Seen)
    ensures Append(Plain(s), Seen(PlainRecord(last.record), last.captured)) == Plain(Append(s, last))
  {
    PlainTally(s, last.record, last.captured);
    var rs := s.records;
    assert PlainRecords(rs + [last.record]) == PlainRecords(rs) + [PlainRecord(last.record)];
  }

  lemma PlainSeenLast(seen: seq<Seen>)
    requires seen != []
    ensures var n := |seen| - 1;
      && PlainSeen(seen)[..n] == PlainSeen(seen[..n])
      && PlainSeen(seen)[n] == Seen(PlainRecord(seen[n].record), seen[n].captured)
  {
  }

  lemma SumLast(seen: seq<Seen>)
    requires seen != []
    ensures Sum(seen) == Append(Sum(seen[..|seen| - 1]), seen[|seen| - 1])
  {
  }

  lemma {:induction false} PlainSum(seen: seq<Seen>)
    ensures Sum(PlainSeen(seen)) == Plain(Sum(seen))
  {
    if seen == [] {
      assert PlainRecords([]) == [];
    } else {
      var n := |seen| - 1;
      PlainSum(seen[..n]);
      PlainSeenLast(seen);
      SumLast(seen);
      SumLast(PlainSeen(seen));
      PlainAppend(Sum(seen[..n]), seen[n]);
    }
  }

  /** "A reclassification, never a subtraction": withdrawing every declaration from a run changes
      nothing but the classes and the declarations' own outcomes, and out_of_band grows by exactly
      what by_design and dead_end lose. */
  lemma DeclarationsOnlyReclassify(events: seq<Event>)
    ensures Run(WithdrawAll(events)) == Plain(Run(events))
    ensures Run(WithdrawAll(events)).blocks.Total() == Run(events).blocks.Total()
  {
    WithdrawnSeen(events);
    PlainSum(SeenAll(events));
  }

  // ---------------------------------------------------------------- counters are offline counts

  /** The invocations recorded under one class. */
  function Those(seen: seq<Seen>, c: Class): set<int> {
    set i | 0 <= i < |seen| && seen[i].record.block == c
  }

  lemma ThoseGrow(seen: seq<Seen>, c: Class)
    requires seen != []
    ensures var n := |seen| - 1; var before := Those(seen[..n], c);
      n !in before && Those(seen, c) == if seen[n].record.block == c then before + {n} else before
  {
  }

  lemma SumStep(seen: seq<Seen>)
    requires seen != []
    ensures var n := |seen| - 1;
      && Sum(seen).blocks == Sum(seen[..n]).blocks.Add(seen[n].record.block)
      && Sum(seen).commands == Sum(seen[..n]).commands + 1
      && RecoveryOf(Sum(seen)) == Recover(RecoveryOf(Sum(seen[..n])), KindOf(seen[n].record), Sum(seen).commands)
  {
  }

  lemma {:induction false} ThoseAreCounted(seen: seq<Seen>, c: Class)
    requires c != NotABlock
    ensures Sum(seen).blocks.Of(c) == |Those(seen, c)| && Sum(seen).commands == |seen|
  {
    if seen != [] {
      var n := |seen| - 1;
      ThoseAreCounted(seen[..n], c);
      ThoseGrow(seen, c);
      SumStep(seen);
    }
  }

  /** The invocations that blocked. */
  function Blocking(seen: seq<Seen>): set<int> {
    set i | 0 <= i < |seen| && seen[i].record.block != NotABlock
  }

  lemma BlockingGrows(seen: seq<Seen>)
    requires seen != []
    ensures var n := |seen| - 1; var before := Blocking(seen[..n]);
      n !in before && Blocking(seen) == if seen[n].record.block != NotABlock then before + {n} else before
  {
  }

  lemma {:induction false} TotalIsCounted(seen: seq<Seen>)
    ensures Sum(seen).blocks.Total() == |Blocking(seen)|
  {
    if seen != [] {
      var n := |seen| - 1;
      TotalIsCounted(seen[..n]);
      SumStep(seen);
      BlockingGrows(seen);
    }
  }

  /** The invocations of one class. */
  function Classed(events: seq<Event>, c: Class): set<int> {
    set i | 0 <= i < |events| && Classify.Classify(events[i].o) == c
  }

  /** The invocations that blocked. */
  function Stopped(events: seq<Event>): set<int> {
    set i | 0 <= i < |events| && IsBlock(events[i].o)
  }

  lemma SeenClass(events: seq<Event>, i: nat)
    requires i < |events|
    ensures SeenAll(events)[i].record.block == Classify.Classify(events[i].o)
    ensures SeenAll(events)[i].record.block != NotABlock <==> IsBlock(events[i].o)
  {
    SeenAllAt(events, i);
    RecordClass(events[i], i + 1);
  }

  lemma RecordClass(e: Event, n: nat)
    ensures RecordOf(e, n).block == Classify.Classify(e.o)
    ensures RecordOf(e, n).block != NotABlock <==> IsBlock(e.o)
  {
  }

  lemma SeenClasses(events: seq<Event>, c: Class)
    ensures Those(SeenAll(events), c) == Classed(events, c) && Blocking(SeenAll(events)) == Stopped(events)
  {
    forall i | 0 <= i < |events|
      ensures i in Those(SeenAll(events), c) <==> i in Classed(events, c)
      ensures i in Blocking(SeenAll(events)) <==> i in Stopped(events)
    {
      SeenClass(events, i);
    }
  }

  /** Every bucket holds the invocations of its class, and every block is in exactly one bucket. */
  lemma BlocksAreCounted(events: seq<Event>, c: Class)
    requires c != NotABlock
    ensures Run(events).blocks.Of(c) == |Classed(events, c)|
    ensures Run(events).blocks.Total() == |Stopped(events)|
    ensures Run(events).commands == |events|
  {
    SeenClasses(events, c);
    ThoseAreCounted(SeenAll(events), c);
    TotalIsCounted(SeenAll(events));
  }

  // ---------------------------------------------------------------- recovery

  function Kinds(seen: seq<Seen>): (ks: seq<Kind>)
    ensures |ks| == |seen|
  {
    seq(|seen|, i requires 0 <= i < |seen| => KindOf(seen[i].record))
  }

  /** No command went through from p up to i. */
  predicate Stuck(ks: seq<Kind>, p: int, i: int) {
    forall q :: p <= q < i && 0 <= q < |ks| ==> ks[q] != Clean
  }

  /** Command i comes after a block nothing has yet resolved. */
  predicate Recovering(ks: seq<Kind>, i: int) {
    exists p :: 0 <= p < i && p < |ks| && ks[p] == Blocked && Stuck(ks, p, i)
  }

  predicate Resolved(ks: seq<Kind>, i: int) {
    exists r :: 0 <= r < |ks| && i <= r && ks[r] == Clean
  }

  /** The commands spent on a recovery that succeeded. */
  function Spent(ks: seq<Kind>): set<int> {
    set i | 0 <= i < |ks| && Recovering(ks, i) && Resolved(ks, i)
  }

  /** The blocks that open a recovery episode. */
  function Openers(ks: seq<Kind>): set<int> {
    set i | 0 <= i < |ks| && ks[i] == Blocked && !Recovering(ks, i)
  }

  function Track(ks: seq<Kind>): Recovery {
    if ks == [] then Recovery(0, 0, false) else Recover(Track(ks[..|ks| - 1]), ks[|ks| - 1], |ks|)
  }

  /** What the pending block is: the first block since a command last went through. */
  predicate PendingIs(ks: seq<Kind>, r: Recovery) {
    && (r.active ==> 1 <= r.pending <= |ks| && ks[r.pending - 1] == Blocked && Stuck(ks, r.pending - 1, |ks|))
    && (forall p :: 0 <= p < |ks| && ks[p] == Blocked && Stuck(ks, p, |ks|) ==> r.active && r.pending - 1 <= p)
  }

  lemma StuckExtends(ks: seq<Kind>, k: Kind, p: int, i: int)
    requires 0 <= p <= i <= |ks|
    ensures Stuck(ks + [k], p, i) <==> Stuck(ks, p, i)
    ensures Stuck(ks + [k], p, |ks| + 1) <==> Stuck(ks, p, |ks|) && k != Clean
  {
    if Stuck(ks + [k], p, i) {
      assert forall q :: p <= q < i ==> (ks + [k])[q] == ks[q];
    }
    assert (ks + [k])[|ks|] == k;
    if Stuck(ks + [k], p, |ks| + 1) {
      assert forall q :: p <= q < |ks| ==> (ks + [k])[q] == ks[q];
    }
  }

  lemma PendingKept(ks: seq<Kind>, k: Kind, r: Recovery)
    requires PendingIs(ks, r)
    ensures PendingIs(ks + [k], Recover(r, k, |ks| + 1))
  {
    var next, r' := ks + [k], Recover(r, k, |ks| + 1);
    if r'.active {
      if r.active { StuckExtends(ks, k, r.pending - 1, |ks|); }
    }
    forall p | 0 <= p < |next| && next[p] == Blocked && Stuck(next, p, |next|)
      ensures r'.active && r'.pending - 1 <= p
    {
      StuckExtends(ks, k, p, |ks|);
    }
  }

  lemma RecoveringExtends(ks: seq<Kind>, k: Kind, i: int)
    requires 0 <= i <= |ks|
    ensures Recovering(ks + [k], i) <==> Recovering(ks, i)
  {
    forall p | 0 <= p < i
      ensures Stuck(ks + [k], p, i) <==> Stuck(ks, p, i)
    {
      StuckExtends(ks, k, p, i);
    }
  }

  lemma ResolvedExtends(ks: seq<Kind>, k: Kind, i: int)
    requires 0 <= i <= |ks|
    ensures Resolved(ks + [k], i) <==> Resolved(ks, i) || k == Clean
  {
    assert (ks + [k])[|ks|] == k;
    if Resolved(ks, i) {
      var r :| 0 <= r < |ks| && i <= r && ks[r] == Clean;
      assert (ks + [k])[r] == Clean;
    }
  }

  function Span(from: int, n: nat): (r: set<int>)
    ensures forall i :: i in r <==> from <= i < from + n
    ensures |r| == n
  {
    if n == 0 then {} else Span(from, n - 1) + {from + n - 1}
  }

  /** A command that goes through settles exactly those since the pending block. */
  lemma SettledSpan(ks: seq<Kind>, r: Recovery, i: int)
    requires PendingIs(ks, r) && 0 <= i <= |ks|
    ensures Recovering(ks, i) && !Resolved(ks, i) <==> r.active && r.pending <= i
  {
    if Recovering(ks, i) && !Resolved(ks, i) {
      var p :| 0 <= p < i && p < |ks| && ks[p] == Blocked && Stuck(ks, p, i);
      assert Stuck(ks, p, |ks|);
    }
    if r.active && r.pending <= i {
      assert Stuck(ks, r.pending - 1, i);
    }
  }

  lemma SpentStep(ks: seq<Kind>, k: Kind, r: Recovery, i: int)
    requires PendingIs(ks, r)
    ensures i in Spent(ks + [k]) <==> i in Spent(ks) || (k == Clean && r.active && r.pending <= i <= |ks|)
    ensures i in Spent(ks) ==> !(r.active && r.pending <= i)
  {
    if 0 <= i <= |ks| {
      RecoveringExtends(ks, k, i);
      ResolvedExtends(ks, k, i);
      SettledSpan(ks, r, i);
      assert !Resolved(ks, |ks|);
    }
  }

  lemma SpentGrows(ks: seq<Kind>, k: Kind, r: Recovery)
    requires PendingIs(ks, r)
    ensures k == Clean && r.active ==>
              && Spent(ks) !! Span(r.pending, |ks| + 1 - r.pending)
              && Spent(ks + [k]) == Spent(ks) + Span(r.pending, |ks| + 1 - r.pending)
    ensures !(k == Clean && r.active) ==> Spent(ks + [k]) == Spent(ks)
  {
    var before, after := Spent(ks), Spent(ks + [k]);
    forall i
      ensures i in after <==> i in before || (k == Clean && r.active && r.pending <= i <= |ks|)
      ensures i in before ==> !(r.active && r.pending <= i)
    {
      SpentStep(ks, k, r, i);
    }
  }

  lemma {:induction false} TrackCounts(ks: seq<Kind>)
    ensures PendingIs(ks, Track(ks)) && Track(ks).spent == |Spent(ks)|
  {
    if ks != [] {
      var most, k := ks[..|ks| - 1], ks[|ks| - 1];
      assert ks == most + [k];
      TrackCounts(most);
      var r := Track(most);
      PendingKept(most, k, r);
      SpentGrows(most, k, r);
    }
  }

  lemma {:induction false} SumTracks(seen: seq<Seen>)
    ensures RecoveryOf(Sum(seen)) == Track(Kinds(seen)) && Sum(seen).commands == |seen|
  {
    if seen != [] {
      var n := |seen| - 1;
      SumTracks(seen[..n]);
      SumStep(seen);
      assert Kinds(seen)[..n] == Kinds(seen[..n]);
    }
  }

  lemma SubsetSize(a: set<int>, b: set<int>)
    requires a <= b
    ensures |a| <= |b|
  {
    assert b == a + (b - a) && a !! b - a;
    assert |b| == |a| + |b - a|;
  }

  /** recovery_round_trips counts the commands with a block before them that no command has got
      through since, and a command at or after them that does. The block that opens an episode is
      never one of them, so the count leaves room for one command per episode. */
  lemma RecoveryClosedForm(events: seq<Event>)
    ensures var ks := Kinds(SeenAll(events));
      && Run(events).recovery == |Spent(ks)|
      && Run(events).recovery + |Openers(ks)| <= Run(events).commands
  {
    var ks := Kinds(SeenAll(events));
    SumTracks(SeenAll(events));
    TrackCounts(ks);
    var both := Spent(ks) + Openers(ks);
    assert Spent(ks) !! Openers(ks);
    SubsetSize(both, Span(0, |ks|));
  }

  // ---------------------------------------------------------------- the count as documented

  /** The documented count: from the blocking command itself up to and including the first command
      that goes through. */
  function Documented(ks: seq<Kind>): set<int> {
    set i | 0 <= i < |ks| && (ks[i] == Blocked || Recovering(ks, i)) && Resolved(ks, i)
  }

  function ResolvedOpeners(ks: seq<Kind>): set<int> {
    set i | i in Openers(ks) && Resolved(ks, i)
  }

  lemma {:induction false} FirstBlockOpens(ks: seq<Kind>, p: nat) returns (first: nat)
    requires p < |ks| && ks[p] == Blocked
    ensures first <= p && first in Openers(ks)
    decreases p
  {
    first := p;
    if Recovering(ks, p) {
      var q :| 0 <= q < p && ks[q] == Blocked && Stuck(ks, q, p);
      first := FirstBlockOpens(ks, q);
    }
  }

  /** The code leaves the blocking command out, so it reports one less for every episode that
      ends; the two agree exactly on runs where nothing goes through after a block. */
  lemma CountsFromTheNextCommand(events: seq<Event>)
    ensures var ks := Kinds(SeenAll(events));
      && |Documented(ks)| == Run(events).recovery + |ResolvedOpeners(ks)|
      && (Run(events).recovery == |Documented(ks)|
          <==> !exists p, r :: 0 <= p < r < |ks| && ks[p] == Blocked && ks[r] == Clean)
  {
    var ks := Kinds(SeenAll(events));
    RecoveryClosedForm(events);
    var openers := ResolvedOpeners(ks);
    assert Documented(ks) == Spent(ks) + openers && Spent(ks) !! openers;
    if p, r :| 0 <= p < r < |ks| && ks[p] == Blocked && ks[r] == Clean {
      var first := FirstBlockOpens(ks, p);
      assert Resolved(ks, first);
      assert first in openers;
    }
    if i :| i in openers { PairOf(ks, i); }
    assert openers != {} <==> exists i :: i in openers;
  }

  lemma PairOf(ks: seq<Kind>, i: int)
    requires i in ResolvedOpeners(ks)
    ensures exists p, r :: 0 <= p < r < |ks| && ks[p] == Blocked && ks[r] == Clean
  {
    var r :| 0 <= r < |ks| && i <= r && ks[r] == Clean;
    assert ks[i] == Blocked;
  }

  /** An invocation that says nothing and exits with this code. */
  function Quiet(exitCode: int): Event {
    Event("", Observation([], exitCode, "", "", true, true, false, None, false), None, false)
  }

  /** A block and then a command that goes through: one command by the code, two as documented. */
  lemma BlockThenClean()
    ensures var events := [Quiet(1), Quiet(0)];
      Run(events).recovery == 1 && Documented(Kinds(SeenAll(events))) == {0, 1}
  {
    var events := [Quiet(1), Quiet(0)];
    QuietKinds();
    SumTracks(SeenAll(events));
    TrackPair(Kinds(SeenAll(events)));
  }

  lemma KindsAt(events: seq<Event>, i: nat)
    requires i < |events|
    ensures Kinds(SeenAll(events))[i] == KindOf(RecordOf(events[i], i + 1))
  {
    SeenAllAt(events, i);
    KindsIs(SeenAll(events), i);
  }

  lemma KindsIs(seen: seq<Seen>, i: nat)
    requires i < |seen|
    ensures Kinds(seen)[i] == KindOf(seen[i].record)
  {
  }

  lemma QuietKinds()
    ensures Kinds(SeenAll([Quiet(1), Quiet(0)])) == [Blocked, Clean]
  {
    TwoKinds(Quiet(1), Quiet(0));
    QuietBlocks(1);
    QuietPasses(2);
  }

  lemma TwoKinds(first: Event, second: Event)
    ensures Kinds(SeenAll([first, second])) == [KindOf(RecordOf(first, 1)), KindOf(RecordOf(second, 2))]
  {
    KindsAt([first, second], 0);
    KindsAt([first, second], 1);
  }

  lemma QuietBlocks(n: nat)
    ensures KindOf(RecordOf(Quiet(1), n)) == Blocked
  {
    SilentFailure(Quiet(1).o);
  }

  lemma QuietPasses(n: nat)
    ensures KindOf(RecordOf(Quiet(0), n)) == Clean
  {
    SilentSuccess(Quiet(0).o);
  }

  lemma TrackPair(ks: seq<Kind>)
    requires |ks| == 2 && ks[0] == Blocked && ks[1] == Clean
    ensures Track(ks) == Recovery(1, 1, false) && Documented(ks) == {0, 1}
  {
    assert ks[..1][..0] == [];
    assert Track(ks[..1]) == Recovery(0, 1, true);
    assert Stuck(ks, 0, 1) && Recovering(ks, 1) && Resolved(ks, 0) && Resolved(ks, 1);
  }
}
