/** Driving a journey: the loop over its steps, what it observes, and how much of that the author's
    declarations can decide. */
module Runner {
  import opened Text
  import opened Classify
  import opened Metrics
  import opened Corpus

  // ---------------------------------------------------------------- the world a journey meets

  /** What the product answers to one invocation. */
  datatype Output = Output(exitCode: int, stdout: string, stderr: string)

  /** invokeAt: the observation of one run of the product. No caller has declared anything yet. */
  function Invoke(args: seq<string>, out: Output): Observation {
    Observation(args, out.exitCode, out.stdout, out.stderr, true, true, false, None, false)
  }

  /** One invocation a composite flow makes through journeyRun.run. */
  datatype Call = Call(args: seq<string>, out: Output, git: Option<int>, modelRun: bool)

  datatype After = AfterFine | FixtureMissing | AfterFails

  /** What the world gives a step back, for each part it has: its fixture, the capability probe,
      its composite flow, its arguments, its own invocation, and the check afterwards. */
  datatype Encounter = Encounter(
    fixture: bool, supported: bool, calls: seq<Call>, compositeFine: bool,
    args: Option<seq<string>>, out: Output, git: Option<int>, after: After)

  // ---------------------------------------------------------------- the two orders of the rules

  /** The fifth and sixth rule of the classifier in the order written, or the other way round. */
  datatype Rules = AsWritten | OtherWay

  function ClassUnder(rules: Rules, o: Observation): Class {
    if rules == AsWritten then Classify.Classify(o)
    else if !IsBlock(o) then NotABlock
    else if o.selfRecovered then SelfRecovered
    else if NamesContinuation(o) then InBand
    else if o.deadEnd then DeadEnd
    else if Verified(o.byDesign, Emitted(o)) then ByDesign
    else OutOfBand
  }

  // ---------------------------------------------------------------- one step

  /** The invocation of a step with arguments, with the step's declarations stamped on it. */
  function OwnEvent(s: Step, args: seq<string>, w: Encounter): Event {
    Event(s.name, Invoke(args, w.out).(deadEnd := s.deadEnd, byDesign := s.byDesign), w.git, s.modelRun)
  }

  function CallEvent(s: Step, c: Call): Event {
    Event(s.name, Invoke(c.args, c.out), c.git, c.modelRun)
  }

  function CallEvents(s: Step, calls: seq<Call>): (r: seq<Event>)
    ensures |r| == |calls| && forall i :: 0 <= i < |calls| ==> r[i] == CallEvent(s, calls[i])
  {
    if calls == [] then [] else CallEvents(s, calls[..|calls| - 1]) + [CallEvent(s, calls[|calls| - 1])]
  }

  /** The fixture and the capability gate let the step through. */
  predicate Admitted(s: Step, w: Encounter) {
    (s.hasFixture ==> w.fixture) && (s.gated ==> w.supported)
  }

  /** The step gets as far as issuing an invocation of its own. */
  predicate IssuesOwn(s: Step, w: Encounter) {
    Admitted(s, w) && !s.composite && s.hasArgs && w.args.Some?
  }

  /** What a step gives the accumulator to observe. */
  function Issued(s: Step, w: Encounter): seq<Event> {
    if !Admitted(s, w) then []
    else if s.composite then CallEvents(s, w.calls)
    else if s.hasArgs && w.args.Some? then [OwnEvent(s, w.args.value, w)]
    else []
  }

  datatype Why = SurfaceAbsent | RejectedAtRuntime | FixtureUnavailable

  datatype Part = Fixture | Composite | Args | AfterCheck

  /** What a step does to the journey's result. */
  datatype Change = NoChange | Lacks(why: Why) | Fails(part: Part)

  /** How a step ends: whether the loop breaks, and what becomes of the result. */
  datatype Turn = Turn(stop: bool, change: Change)

  predicate HoldsUp(c: Class) {
    c != NotABlock && c != SelfRecovered
  }

  function OwnTurn(rules: Rules, s: Step, w: Encounter, o: Observation): Turn {
    TurnOn(s, w, IsUnsupported(o), ClassUnder(rules, o))
  }

  function TurnOn(s: Step, w: Encounter, unsupported: bool, c: Class): Turn {
    if unsupported then Turn(true, Lacks(RejectedAtRuntime))
    else if s.hasAfter && w.after == FixtureMissing then Turn(true, Lacks(FixtureUnavailable))
    else if s.hasAfter && w.after == AfterFails then Turn(true, Fails(AfterCheck))
    else Turn(s.abortOnBlock && HoldsUp(c), NoChange)
  }

  function TurnOf(rules: Rules, s: Step, w: Encounter): Turn {
    if s.hasFixture && !w.fixture then Turn(true, Fails(Fixture))
    else if s.gated && !w.supported then Turn(s.hasArgs || s.composite, Lacks(SurfaceAbsent))
    else if s.composite then if w.compositeFine then Turn(false, NoChange) else Turn(true, Fails(Composite))
    else if !s.hasArgs then Turn(false, NoChange)
    else if w.args.None? then Turn(true, Fails(Args))
    else OwnTurn(rules, s, w, OwnEvent(s, w.args.value, w).o)
  }

  // ---------------------------------------------------------------- a whole journey

  datatype Status = Completed | Unsupported | Failed

  datatype Missing = Missing(step: string, why: Why)

  datatype Failure = Failure(step: string, part: Part)

  datatype Result = Result(status: Status, unsupported: seq<Missing>, failure: Option<Failure>)

  const FRESH: Result := Result(Completed, [], None)

  function Changed(r: Result, s: Step, c: Change): Result {
    match c
    case NoChange => r
    case Lacks(why) => r.(status := Unsupported, unsupported := r.unsupported + [Missing(s.name, why)])
    case Fails(part) => r.(status := Failed, failure := Some(Failure(s.name, part)))
  }

  /** An invocation, the step that issued it, and whether it was the step's own. */
  datatype Traced = Traced(step: nat, own: bool, event: Event)

  function Tag(k: nat, s: Step, events: seq<Event>): (r: seq<Traced>)
    ensures |r| == |events|
  {
    seq(|events|, i requires 0 <= i < |events| => Traced(k, !s.composite, events[i]))
  }

  /** How every step would end if it were reached. */
  function Turns(rules: Rules, steps: seq<Step>, ws: seq<Encounter>): (r: seq<Turn>)
    requires |ws| == |steps|
    ensures |r| == |steps|
  {
    seq(|steps|, k requires 0 <= k < |steps| => TurnOf(rules, steps[k], ws[k]))
  }

  /** The invocations of a journey from some step on, in order. */
  function Trace(turns: seq<Turn>, steps: seq<Step>, ws: seq<Encounter>, k: nat): seq<Traced>
    requires |ws| == |steps| == |turns|
    decreases |steps| - k
  {
    if k >= |steps| then []
    else Tag(k, steps[k], Issued(steps[k], ws[k])) + if turns[k].stop then [] else Trace(turns, steps, ws, k + 1)
  }

  function ResultFrom(turns: seq<Turn>, steps: seq<Step>, k: nat, r: Result): Result
    requires |turns| == |steps|
    decreases |steps| - k
  {
    if k >= |steps| then r
    else
      var next := Changed(r, steps[k], turns[k].change);
      if turns[k].stop then next else ResultFrom(turns, steps, k + 1, next)
  }

  function Events(ts: seq<Traced>): (r: seq<Event>)
    ensures |r| == |ts|
  {
    seq(|ts|, i requires 0 <= i < |ts| => ts[i].event)
  }

  function SeenUnder(rules: Rules, events: seq<Event>): (r: seq<Seen>)
    ensures |r| == |events|
  {
    seq(|events|, i requires 0 <= i < |events| =>
      Seen(RecordAs(events[i], ClassUnder(rules, events[i].o), i + 1), events[i].o.stderrCaptured))
  }

  /** What a journey leaves behind: its result, and the accumulator with all records. */
  datatype Driven = Driven(result: Result, state: State)

  function Drive(rules: Rules, steps: seq<Step>, ws: seq<Encounter>): Driven
    requires |ws| == |steps|
  {
    var turns := Turns(rules, steps, ws);
    Driven(ResultFrom(turns, steps, 0, FRESH), Sum(SeenUnder(rules, Events(Trace(turns, steps, ws, 0)))))
  }

  // ---------------------------------------------------------------- the loop

  lemma AsWrittenRuns(events: seq<Event>)
    ensures Sum(SeenUnder(AsWritten, events)) == Run(events)
  {
    assert SeenUnder(AsWritten, events) == SeenAll(events);
  }

  /** A composite flow: each of its invocations goes through journeyRun.run. */
  method RunComposite(s: Step, calls: seq<Call>, a: Accumulator, ghost before: seq<Event>)
    requires a.Fields() == Run(before) && a.commands == |before|
    modifies a
    ensures a.Fields() == Run(before + CallEvents(s, calls)) && a.commands == |before| + |calls|
  {
    var i := 0;
    assert before + CallEvents(s, calls[..0]) == before;
    while i < |calls|
      invariant 0 <= i <= |calls|
      invariant a.Fields() == Run(before + CallEvents(s, calls[..i])) && a.commands == |before| + i
    {
      RunCall(s, calls[i], a, before + CallEvents(s, calls[..i]));
      CallsGrow(s, calls, i, before);
      i := i + 1;
    }
    assert calls[..i] == calls;
  }

  method RunCall(s: Step, c: Call, a: Accumulator, ghost before: seq<Event>)
    requires a.Fields() == Run(before) && a.commands == |before|
    modifies a
    ensures a.Fields() == Run(before + [CallEvent(s, c)]) && a.commands == |before| + 1
  {
    var o := Invoke(c.args, c.out);
    var _ := a.ObserveNext(Event(s.name, o, c.git, c.modelRun), before);
  }

  lemma CallsGrow(s: Step, calls: seq<Call>, i: nat, before: seq<Event>)
    requires i < |calls|
    ensures before + CallEvents(s, calls[..i]) + [CallEvent(s, calls[i])] == before + CallEvents(s, calls[..i + 1])
  {
    assert calls[..i + 1][..i] == calls[..i];
  }

  /** A step's own invocation, stamped with its declarations, and the checks on what it did. */
  method RunOwn(s: Step, args: seq<string>, w: Encounter, a: Accumulator, ghost before: seq<Event>) returns (turn: Turn)
    requires a.Fields() == Run(before) && a.commands == |before|
    modifies a
    ensures a.Fields() == Run(before + [OwnEvent(s, args, w)]) && a.commands == |before| + 1
    ensures turn == OwnTurn(AsWritten, s, w, OwnEvent(s, args, w).o)
  {
    var observation := Invoke(args, w.out);
    observation := observation.(deadEnd := s.deadEnd, byDesign := s.byDesign);
    var e := Event(s.name, observation, w.git, s.modelRun);
    var record := a.ObserveNext(e, before);
    RecordSays(e, |before| + 1);
    turn := CheckOwn(s, w, record);
  }

  /** What the runner makes of the record, and of the check afterwards. */
  method CheckOwn(s: Step, w: Encounter, record: Record) returns (turn: Turn)
    ensures turn == TurnOn(s, w, record.unsupported, record.block)
  {
    if record.unsupported { return Turn(true, Lacks(RejectedAtRuntime)); }
    if s.hasAfter {
      if w.after == FixtureMissing { return Turn(true, Lacks(FixtureUnavailable)); }
      if w.after == AfterFails { return Turn(true, Fails(AfterCheck)); }
    }
    if s.abortOnBlock && record.block != NotABlock && record.block != SelfRecovered { return Turn(true, NoChange); }
    turn := Turn(false, NoChange);
  }

  lemma RecordSays(e: Event, n: nat)
    ensures RecordOf(e, n).unsupported == IsUnsupported(e.o)
    ensures RecordOf(e, n).block == Classify.Classify(e.o)
  {
  }

  /** The body of the loop for one step. */
  method RunStep(s: Step, w: Encounter, a: Accumulator, ghost before: seq<Event>) returns (turn: Turn)
    requires a.Fields() == Run(before) && a.commands == |before|
    modifies a
    ensures a.Fields() == Run(before + Issued(s, w)) && a.commands == |before| + |Issued(s, w)|
    ensures turn == TurnOf(AsWritten, s, w)
  {
    assert before + [] == before;
    if s.hasFixture && !w.fixture { return Turn(true, Fails(Fixture)); }
    if s.gated && !w.supported { return Turn(s.hasArgs || s.composite, Lacks(SurfaceAbsent)); }
    if s.composite {
      RunComposite(s, w.calls, a, before);
      return if w.compositeFine then Turn(false, NoChange) else Turn(true, Fails(Composite));
    }
    if !s.hasArgs { return Turn(false, NoChange); }
    if w.args.None? { return Turn(true, Fails(Args)); }
    turn := RunOwn(s, w.args.value, w, a, before);
  }

  /** runJourney: the steps in order until one breaks the loop. */
  method RunJourney(steps: seq<Step>, ws: seq<Encounter>, a: Accumulator) returns (result: Result)
    requires |ws| == |steps| && a.Fields() == START
    modifies a
    ensures Driven(result, a.Fields()) == Drive(AsWritten, steps, ws)
  {
    ghost var turns := Turns(AsWritten, steps, ws);
    ghost var log;
    result, log := RunSteps(steps, ws, turns, a);
    AsWrittenRuns(log);
  }

  /** What the loop still has to do completes what it has done. */
  ghost predicate Continues(turns: seq<Turn>, steps: seq<Step>, ws: seq<Encounter>, k: nat, log: seq<Event>, r: Result)
    requires |ws| == |steps| == |turns|
  {
    && log + Events(Trace(turns, steps, ws, k)) == Events(Trace(turns, steps, ws, 0))
    && ResultFrom(turns, steps, k, r) == ResultFrom(turns, steps, 0, FRESH)
  }

  ghost predicate Finished(turns: seq<Turn>, steps: seq<Step>, ws: seq<Encounter>, log: seq<Event>, r: Result)
    requires |ws| == |steps| == |turns|
  {
    log == Events(Trace(turns, steps, ws, 0)) && r == ResultFrom(turns, steps, 0, FRESH)
  }

  lemma Starts(turns: seq<Turn>, steps: seq<Step>, ws: seq<Encounter>)
    requires |ws| == |steps| == |turns|
    ensures Continues(turns, steps, ws, 0, [], FRESH)
  {
    var all := Events(Trace(turns, steps, ws, 0));
    assert [] + all == all;
  }

  lemma Ends(turns: seq<Turn>, steps: seq<Step>, ws: seq<Encounter>, log: seq<Event>, r: Result)
    requires |ws| == |steps| == |turns| && Continues(turns, steps, ws, |steps|, log, r)
    ensures Finished(turns, steps, ws, log, r)
  {
    assert Events([]) == [] && log + [] == log;
  }

  lemma Advances(turns: seq<Turn>, steps: seq<Step>, ws: seq<Encounter>, k: nat, log: seq<Event>, r: Result)
    requires |ws| == |steps| == |turns| && k < |steps| && Continues(turns, steps, ws, k, log, r)
    ensures var log' := log + Issued(steps[k], ws[k]); var r' := Changed(r, steps[k], turns[k].change);
      if turns[k].stop then Finished(turns, steps, ws, log', r') else Continues(turns, steps, ws, k + 1, log', r')
  {
    TraceStep(turns, steps, ws, k, log);
    var log' := log + Issued(steps[k], ws[k]);
    assert log' + [] == log';
  }

  method RunSteps(steps: seq<Step>, ws: seq<Encounter>, ghost turns: seq<Turn>, a: Accumulator)
    returns (result: Result, ghost log: seq<Event>)
    requires |ws| == |steps| && a.Fields() == START && turns == Turns(AsWritten, steps, ws)
    modifies a
    ensures a.Fields() == Run(log) && Finished(turns, steps, ws, log, result)
  {
    result, log := FRESH, [];
    Starts(turns, steps, ws);
    var k := 0;
    while k < |steps|
      invariant 0 <= k <= |steps|
      invariant a.Fields() == Run(log) && a.commands == |log|
      invariant Continues(turns, steps, ws, k, log, result)
    {
      var turn := RunKth(steps, ws, k, turns, a, log);
      Advances(turns, steps, ws, k, log, result);
      log := log + Issued(steps[k], ws[k]);
      result := Changed(result, steps[k], turn.change);
      if turn.stop { return; }
      k := k + 1;
    }
    Ends(turns, steps, ws, log, result);
  }

  method RunKth(steps: seq<Step>, ws: seq<Encounter>, k: nat, ghost turns: seq<Turn>, a: Accumulator,
                ghost log: seq<Event>)
    returns (turn: Turn)
    requires k < |ws| == |steps| && turns == Turns(AsWritten, steps, ws)
    requires a.Fields() == Run(log) && a.commands == |log|
    modifies a
    ensures a.Fields() == Run(log + Issued(steps[k], ws[k])) && a.commands == |log| + |Issued(steps[k], ws[k])|
    ensures turn == turns[k]
  {
    turn := RunStep(steps[k], ws[k], a, log);
  }

  lemma TraceStep(turns: seq<Turn>, steps: seq<Step>, ws: seq<Encounter>, k: nat, log: seq<Event>)
    requires |ws| == |steps| == |turns| && k < |steps|
    ensures var more := if turns[k].stop then [] else Events(Trace(turns, steps, ws, k + 1));
      log + Events(Trace(turns, steps, ws, k)) == log + Issued(steps[k], ws[k]) + more
  {
    var events := Issued(steps[k], ws[k]);
    var tail := if turns[k].stop then [] else Trace(turns, steps, ws, k + 1);
    var tagged := Tag(k, steps[k], events);
    EventsConcat(tagged, tail);
    assert Events(tagged) == events;
    Joined(log, events, Events(tail));
    assert Events([]) == [];
  }

  lemma Joined(a: seq<Event>, b: seq<Event>, c: seq<Event>)
    ensures a + (b + c) == a + b + c && a + b + [] == a + b
  {
  }

  lemma EventsConcat(a: seq<Traced>, b: seq<Traced>)
    ensures Events(a + b) == Events(a) + Events(b)
  {
  }

  // ---------------------------------------------------------------- where an invocation comes from

  /** Every step before this one let the loop go on. */
  predicate Passes(turns: seq<Turn>, from: nat, k: nat)
    requires k <= |turns|
  {
    forall m :: from <= m < k ==> !turns[m].stop
  }

  function Tail(turns: seq<Turn>, steps: seq<Step>, ws: seq<Encounter>, k: nat): seq<Traced>
    requires |ws| == |steps| == |turns| && k < |steps|
  {
    if turns[k].stop then [] else Trace(turns, steps, ws, k + 1)
  }

  lemma TraceIs(turns: seq<Turn>, steps: seq<Step>, ws: seq<Encounter>, k: nat, events: seq<Event>)
    requires |ws| == |steps| == |turns| && k < |steps| && events == Issued(steps[k], ws[k])
    ensures Trace(turns, steps, ws, k) == Tag(k, steps[k], events) + Tail(turns, steps, ws, k)
  {
  }

  /** The invocation was issued by a step the loop came to from step k on. */
  ghost predicate Issuer(turns: seq<Turn>, steps: seq<Step>, ws: seq<Encounter>, k: nat, t: Traced)
    requires |ws| == |steps| == |turns|
  {
    && k <= t.step < |steps| && Passes(turns, k, t.step)
    && t.own == !steps[t.step].composite && t.event in Issued(steps[t.step], ws[t.step])
  }

  lemma IssuerEarlier(turns: seq<Turn>, steps: seq<Step>, ws: seq<Encounter>, k: nat, t: Traced)
    requires |ws| == |steps| == |turns| && k < |steps| && !turns[k].stop && Issuer(turns, steps, ws, k + 1, t)
    ensures Issuer(turns, steps, ws, k, t)
  {
  }

  lemma IssuerHere(turns: seq<Turn>, steps: seq<Step>, ws: seq<Encounter>, k: nat, events: seq<Event>, t: Traced)
    requires |ws| == |steps| == |turns| && k < |steps| && events == Issued(steps[k], ws[k])
             && t in Tag(k, steps[k], events)
    ensures Issuer(turns, steps, ws, k, t)
  {
  }

  /** Every invocation was issued by a step the loop came to. */
  lemma {:induction false} TraceOrigin(turns: seq<Turn>, steps: seq<Step>, ws: seq<Encounter>, k: nat, t: Traced)
    requires |ws| == |steps| == |turns| && t in Trace(turns, steps, ws, k)
    ensures Issuer(turns, steps, ws, k, t)
    decreases |steps| - k
  {
    var tagged, tail := Tag(k, steps[k], Issued(steps[k], ws[k])), Tail(turns, steps, ws, k);
    TraceIs(turns, steps, ws, k, Issued(steps[k], ws[k]));
    InEither(tagged, tail, t);
    if t in tagged {
      IssuerHere(turns, steps, ws, k, Issued(steps[k], ws[k]), t);
    } else {
      TraceOrigin(turns, steps, ws, k + 1, t);
      IssuerEarlier(turns, steps, ws, k, t);
    }
  }

  lemma InEither(a: seq<Traced>, b: seq<Traced>, t: Traced)
    ensures t in a + b <==> t in a || t in b
  {
  }

  /** Every step the loop comes to that issues an invocation of its own is in the trace with it. */
  lemma {:induction false} TraceHas(turns: seq<Turn>, steps: seq<Step>, ws: seq<Encounter>, k: nat, j: nat)
    returns (i: nat)
    requires |ws| == |steps| == |turns| && k <= j < |steps| && Passes(turns, k, j) && IssuesOwn(steps[j], ws[j])
    ensures i < |Trace(turns, steps, ws, k)|
    ensures Trace(turns, steps, ws, k)[i] == Traced(j, true, OwnEvent(steps[j], ws[j].args.value, ws[j]))
    decreases j - k
  {
    if k == j {
      i := 0;
      OwnIsFirst(turns, steps, ws, k);
    } else {
      var later := TraceHas(turns, steps, ws, k + 1, j);
      i := later + |Issued(steps[k], ws[k])|;
      TraceSkips(turns, steps, ws, k, later);
    }
  }

  lemma OwnIsFirst(turns: seq<Turn>, steps: seq<Step>, ws: seq<Encounter>, k: nat)
    requires |ws| == |steps| == |turns| && k < |steps| && IssuesOwn(steps[k], ws[k])
    ensures |Trace(turns, steps, ws, k)| > 0
    ensures Trace(turns, steps, ws, k)[0] == Traced(k, true, OwnEvent(steps[k], ws[k].args.value, ws[k]))
  {
    TraceIs(turns, steps, ws, k, Issued(steps[k], ws[k]));
    TagFirst(k, steps[k], Issued(steps[k], ws[k]), Tail(turns, steps, ws, k));
  }

  lemma TagFirst(k: nat, s: Step, events: seq<Event>, tail: seq<Traced>)
    requires events != []
    ensures (Tag(k, s, events) + tail)[0] == Traced(k, !s.composite, events[0])
  {
  }

  lemma TraceSkips(turns: seq<Turn>, steps: seq<Step>, ws: seq<Encounter>, k: nat, i: nat)
    requires |ws| == |steps| == |turns| && k < |steps| && !turns[k].stop && i < |Trace(turns, steps, ws, k + 1)|
    ensures var n := |Issued(steps[k], ws[k])|;
      i + n < |Trace(turns, steps, ws, k)| && Trace(turns, steps, ws, k)[i + n] == Trace(turns, steps, ws, k + 1)[i]
  {
    var tagged := Tag(k, steps[k], Issued(steps[k], ws[k]));
    assert Trace(turns, steps, ws, k) == tagged + Trace(turns, steps, ws, k + 1);
  }

  /** An observation of a composite flow declares nothing; one of a step's own declares what the
      step does. */
  lemma IssuedDeclares(s: Step, w: Encounter, e: Event)
    requires e in Issued(s, w)
    ensures s.composite ==> e.o.byDesign.None? && !e.o.deadEnd
    ensures !s.composite ==> e.o.byDesign == s.byDesign && e.o.deadEnd == s.deadEnd && IssuesOwn(s, w)
  {
  }

  lemma {:induction false} SumRecords(seen: seq<Seen>)
    ensures |Sum(seen).records| == |seen| && forall i :: 0 <= i < |seen| ==> Sum(seen).records[i] == seen[i].record
  {
    if seen != [] { SumRecords(seen[..|seen| - 1]); }
  }

  lemma RecordsOf(rules: Rules, steps: seq<Step>, ws: seq<Encounter>, i: nat)
    requires |ws| == |steps| && i < |Trace(Turns(rules, steps, ws), steps, ws, 0)|
    ensures var trace := Trace(Turns(rules, steps, ws), steps, ws, 0);
      var records := Drive(rules, steps, ws).state.records;
      |records| == |trace| && records[i] == RecordAs(trace[i].event, ClassUnder(rules, trace[i].event.o), i + 1)
  {
    RecordsUnder(rules, Trace(Turns(rules, steps, ws), steps, ws, 0), i);
  }

  lemma RecordsUnder(rules: Rules, ts: seq<Traced>, i: nat)
    requires i < |ts|
    ensures var records := Sum(SeenUnder(rules, Events(ts))).records;
      |records| == |ts| && records[i] == RecordAs(ts[i].event, ClassUnder(rules, ts[i].event.o), i + 1)
  {
    var seen := SeenUnder(rules, Events(ts));
    SumRecords(seen);
    SeenAt(rules, Events(ts), i);
  }

  lemma SeenAt(rules: Rules, events: seq<Event>, i: nat)
    requires i < |events|
    ensures SeenUnder(rules, events)[i].record == RecordAs(events[i], ClassUnder(rules, events[i].o), i + 1)
  {
  }

  lemma RecordOutcome(e: Event, c: Class, n: nat)
    ensures RecordAs(e, c, n).byDesign.Some? <==> e.o.byDesign.Some?
    ensures RecordAs(e, c, n).deadEnd.Some? <==> e.o.deadEnd
    ensures RecordAs(e, c, n).block == if IsUnsupported(e.o) then NotABlock else c
  {
  }

  // ---------------------------------------------------------------- what an accepted corpus buys

  /** The order of the two rules decides exactly the blocks nothing else claims that carry both a
      verified quote and a dead end. */
  lemma OrderMatters(o: Observation)
    ensures ClassUnder(AsWritten, o) != ClassUnder(OtherWay, o)
            <==> IsBlock(o) && !o.selfRecovered && !NamesContinuation(o) && o.deadEnd
                 && Verified(o.byDesign, Emitted(o))
    ensures HoldsUp(ClassUnder(AsWritten, o)) == HoldsUp(ClassUnder(OtherWay, o))
  {
  }

  lemma TurnSame(s: Step, w: Encounter)
    ensures TurnOf(AsWritten, s, w) == TurnOf(OtherWay, s, w)
  {
    if w.args.Some? { OrderMatters(OwnEvent(s, w.args.value, w).o); }
  }

  lemma TurnsSame(steps: seq<Step>, ws: seq<Encounter>)
    requires |ws| == |steps|
    ensures Turns(AsWritten, steps, ws) == Turns(OtherWay, steps, ws)
  {
    forall k | 0 <= k < |steps|
      ensures Turns(AsWritten, steps, ws)[k] == Turns(OtherWay, steps, ws)[k]
    {
      TurnSame(steps[k], ws[k]);
    }
  }

  /** An observation of an accepted journey, under either order of the rules. */
  lemma ObservedAlike(steps: seq<Step>, ws: seq<Encounter>, i: nat)
    requires |ws| == |steps| && forall s :: s in steps ==> Accepts(s)
    requires i < |Trace(Turns(AsWritten, steps, ws), steps, ws, 0)|
    ensures var o := Trace(Turns(AsWritten, steps, ws), steps, ws, 0)[i].event.o;
      ClassUnder(AsWritten, o) == ClassUnder(OtherWay, o)
  {
    var turns := Turns(AsWritten, steps, ws);
    var t := Trace(turns, steps, ws, 0)[i];
    TraceOrigin(turns, steps, ws, 0, Trace(turns, steps, ws, 0)[i]);
    assert steps[t.step] in steps;
    AcceptedDeclares(steps[t.step]);
    IssuedDeclares(steps[t.step], ws[t.step], t.event);
    OrderMatters(t.event.o);
  }

  lemma SeenAlike(steps: seq<Step>, ws: seq<Encounter>)
    requires |ws| == |steps| && forall s :: s in steps ==> Accepts(s)
    ensures var events := Events(Trace(Turns(AsWritten, steps, ws), steps, ws, 0));
      SeenUnder(AsWritten, events) == SeenUnder(OtherWay, events)
  {
    var events := Events(Trace(Turns(AsWritten, steps, ws), steps, ws, 0));
    forall i | 0 <= i < |events|
      ensures SeenUnder(AsWritten, events)[i] == SeenUnder(OtherWay, events)[i]
    {
      ObservedAlike(steps, ws, i);
    }
  }

  lemma AcceptedSteps(journeys: seq<Journey>, j: Journey)
    requires CorpusProblems(journeys) == [] && j in journeys
    ensures forall s :: s in j.steps ==> Accepts(s)
  {
    NothingListed(journeys);
  }

  /** On an accepted corpus the order of the two declared rules changes nothing: not the result of
      any journey, not a counter, not a record. */
  lemma SwapChangesNothing(journeys: seq<Journey>, j: Journey, ws: seq<Encounter>)
    requires CorpusProblems(journeys) == [] && j in journeys && |ws| == |j.steps|
    ensures Drive(AsWritten, j.steps, ws) == Drive(OtherWay, j.steps, ws)
  {
    AcceptedSteps(journeys, j);
    TurnsSame(j.steps, ws);
    SeenAlike(j.steps, ws);
  }

  /** Every recorded class is the one the swapped classifier gives the same observation. */
  lemma RecordedClass(journeys: seq<Journey>, j: Journey, ws: seq<Encounter>, i: nat)
    requires CorpusProblems(journeys) == [] && j in journeys && |ws| == |j.steps|
    requires i < |Trace(Turns(AsWritten, j.steps, ws), j.steps, ws, 0)|
    ensures var o := Trace(Turns(AsWritten, j.steps, ws), j.steps, ws, 0)[i].event.o;
      var records := Drive(AsWritten, j.steps, ws).state.records;
      i < |records| && records[i].block == ClassUnder(OtherWay, o)
  {
    var e := Trace(Turns(AsWritten, j.steps, ws), j.steps, ws, 0)[i].event;
    AcceptedSteps(journeys, j);
    RecordsOf(AsWritten, j.steps, ws, i);
    ObservedAlike(j.steps, ws, i);
    RecordOutcome(e, ClassUnder(AsWritten, e.o), i + 1);
    UnsupportedIsNoBlock(e.o);
  }

  lemma UnsupportedIsNoBlock(o: Observation)
    ensures IsUnsupported(o) ==> ClassUnder(AsWritten, o) == NotABlock && ClassUnder(OtherWay, o) == NotABlock
  {
  }

  /** Whatever the corpus declares and whatever the world answers, no record of a composite step is
      by_design or dead_end, and none carries a declaration. */
  lemma CompositeNeverExcused(rules: Rules, steps: seq<Step>, ws: seq<Encounter>, i: nat)
    requires |ws| == |steps| && i < |Trace(Turns(rules, steps, ws), steps, ws, 0)|
    requires steps[Origin(rules, steps, ws, i)].composite
    ensures var records := Drive(rules, steps, ws).state.records;
      i < |records| && records[i].block != ByDesign && records[i].block != DeadEnd
      && records[i].byDesign.None? && records[i].deadEnd.None?
  {
    var turns := Turns(rules, steps, ws);
    var t := Trace(turns, steps, ws, 0)[i];
    TraceOrigin(turns, steps, ws, 0, Trace(turns, steps, ws, 0)[i]);
    IssuedDeclares(steps[t.step], ws[t.step], t.event);
    RecordsOf(rules, steps, ws, i);
    RecordOutcome(t.event, ClassUnder(rules, t.event.o), i + 1);
    PlainIsNotExcused(rules, t.event.o);
  }

  lemma PlainIsNotExcused(rules: Rules, o: Observation)
    requires o.byDesign.None? && !o.deadEnd
    ensures ClassUnder(rules, o) != ByDesign && ClassUnder(rules, o) != DeadEnd
  {
  }

  /** The step a record comes from. */
  function Origin(rules: Rules, steps: seq<Step>, ws: seq<Encounter>, i: nat): (k: nat)
    requires |ws| == |steps| && i < |Trace(Turns(rules, steps, ws), steps, ws, 0)|
    ensures k < |steps|
  {
    TraceOrigin(Turns(rules, steps, ws), steps, ws, 0, Trace(Turns(rules, steps, ws), steps, ws, 0)[i]);
    Trace(Turns(rules, steps, ws), steps, ws, 0)[i].step
  }

  /** A record of the journey, from this step, that reports what the step declares. */
  ghost predicate Reports(rules: Rules, steps: seq<Step>, ws: seq<Encounter>, k: nat, i: nat)
    requires |ws| == |steps| && k < |steps|
  {
    && i < |Trace(Turns(rules, steps, ws), steps, ws, 0)| && i < |Drive(rules, steps, ws).state.records|
    && Origin(rules, steps, ws, i) == k
    && var r := Drive(rules, steps, ws).state.records[i];
       (r.byDesign.Some? || r.deadEnd.Some?) && (r.byDesign.Some? <==> steps[k].byDesign.Some?)
         && (r.deadEnd.Some? <==> steps[k].deadEnd)
  }

  /** The check means to refuse a declaration that cannot reach the classifier. On an accepted
      corpus one does reach a record exactly when the loop comes to its step, the fixture, the gate
      and the arguments let it through, and the step is not composite. */
  lemma ArrivesIff(journeys: seq<Journey>, j: Journey, ws: seq<Encounter>, k: nat)
    requires CorpusProblems(journeys) == [] && j in journeys && |ws| == |j.steps| && k < |j.steps|
    requires j.steps[k].byDesign.Some? || j.steps[k].deadEnd
    ensures (exists i: nat :: Reports(AsWritten, j.steps, ws, k, i))
            <==> Passes(Turns(AsWritten, j.steps, ws), 0, k) && Admitted(j.steps[k], ws[k]) && ws[k].args.Some?
                 && !j.steps[k].composite
  {
    var steps, turns := j.steps, Turns(AsWritten, j.steps, ws);
    AcceptedSteps(journeys, j);
    assert steps[k] in steps;
    AcceptedDeclares(steps[k]);
    if Passes(turns, 0, k) && IssuesOwn(steps[k], ws[k]) {
      var i := TraceHas(turns, steps, ws, 0, k);
      OwnReports(AsWritten, steps, ws, k, i);
    }
    if i: nat :| Reports(AsWritten, steps, ws, k, i) {
      ReportIsOwn(AsWritten, steps, ws, k, i);
    }
  }

  lemma OwnReports(rules: Rules, steps: seq<Step>, ws: seq<Encounter>, k: nat, i: nat)
    requires |ws| == |steps| && k < |steps| && IssuesOwn(steps[k], ws[k])
             && (steps[k].byDesign.Some? || steps[k].deadEnd)
    requires i < |Trace(Turns(rules, steps, ws), steps, ws, 0)|
    requires Trace(Turns(rules, steps, ws), steps, ws, 0)[i]
             == Traced(k, true, OwnEvent(steps[k], ws[k].args.value, ws[k]))
    ensures Reports(rules, steps, ws, k, i)
  {
    var e := OwnEvent(steps[k], ws[k].args.value, ws[k]);
    RecordsOf(rules, steps, ws, i);
    RecordOutcome(e, ClassUnder(rules, e.o), i + 1);
  }

  lemma ReportIsOwn(rules: Rules, steps: seq<Step>, ws: seq<Encounter>, k: nat, i: nat)
    requires |ws| == |steps| && k < |steps| && Reports(rules, steps, ws, k, i)
    ensures Passes(Turns(rules, steps, ws), 0, k) && IssuesOwn(steps[k], ws[k])
  {
    var turns := Turns(rules, steps, ws);
    var t := Trace(turns, steps, ws, 0)[i];
    TraceOrigin(turns, steps, ws, 0, Trace(turns, steps, ws, 0)[i]);
    IssuedDeclares(steps[k], ws[k], t.event);
    RecordsOf(rules, steps, ws, i);
    RecordOutcome(t.event, ClassUnder(rules, t.event.o), i + 1);
  }

  const LOST: Step := Step("both", None, true, false, false, true, true, false, false, false)
  const SILENT: Call := Call([], Output(1, "", ""), None, false)
  const MET: Encounter := Encounter(true, true, [SILENT], true, Some([]), Output(1, "", ""), None, AfterFine)

  /** A run in which a declaration is lost: the step has arguments and a composite flow, declares a
      dead end and is accepted; its flow fails, the loop comes to it, and the record says
      out_of_band and reports no declaration. */
  lemma LostInARun()
    ensures CorpusProblems([Journey("j", [LOST])]) == []
    ensures var records := Drive(AsWritten, [LOST], [MET]).state.records;
      |records| == 1 && records[0].block == OutOfBand && records[0].deadEnd.None?
    ensures !exists i: nat :: Reports(AsWritten, [LOST], [MET], 0, i)
  {
    LostIsAccepted();
    LostRecord();
    ArrivesIff([Journey("j", [LOST])], Journey("j", [LOST]), [MET], 0);
  }

  lemma LostIsAccepted()
    ensures CorpusProblems([Journey("j", [LOST])]) == []
  {
    var js, steps := [Journey("j", [LOST])], [LOST];
    assert StepProblems(LOST) == [];
    assert js[..0] == [] && steps[..0] == [];
    assert JourneyProblems("j", steps) == [];
  }

  lemma LostRecord()
    ensures var records := Drive(AsWritten, [LOST], [MET]).state.records;
      |records| == 1 && records[0].block == OutOfBand && records[0].deadEnd.None?
  {
    var e := CallEvent(LOST, SILENT);
    LostTrace(Turns(AsWritten, [LOST], [MET]));
    RecordsOf(AsWritten, [LOST], [MET], 0);
    SilentFailure(e.o);
    RecordOutcome(e, OutOfBand, 1);
  }

  lemma LostTrace(turns: seq<Turn>)
    requires |turns| == 1
    ensures Trace(turns, [LOST], [MET], 0) == [Traced(0, false, CallEvent(LOST, SILENT))]
  {
    assert MET.calls[..0] == [];
    assert CallEvents(LOST, MET.calls) == [CallEvent(LOST, SILENT)];
    var tagged := Tag(0, LOST, [CallEvent(LOST, SILENT)]);
    assert Trace(turns, [LOST], [MET], 1) == [];
    assert tagged + [] == tagged;
  }

  // ---------------------------------------------------------------- the whole run

  /** Whether the journey is to be run: all are when none is asked for. */
  predicate Chosen(only: set<string>, j: Journey) {
    only == {} || j.id in only
  }

  function DriveAll(rules: Rules, only: set<string>, journeys: seq<Journey>, worlds: seq<seq<Encounter>>): seq<Driven>
    requires |worlds| == |journeys| && forall i :: 0 <= i < |journeys| ==> |worlds[i]| == |journeys[i].steps|
  {
    if journeys == [] then []
    else
      var n := |journeys| - 1;
      DriveAll(rules, only, journeys[..n], worlds[..n])
      + if Chosen(only, journeys[n]) then [Drive(rules, journeys[n].steps, worlds[n])] else []
  }

  /** commandRun: the whole corpus is checked first, whatever is asked for, and the journeys asked for
      are driven only if nothing is listed; then none depends on the order of the two rules. */
  method RunCorpus(only: set<string>, journeys: seq<Journey>, worlds: seq<seq<Encounter>>)
    returns (problems: seq<Located>, results: seq<Driven>)
    requires |worlds| == |journeys| && forall i :: 0 <= i < |journeys| ==> |worlds[i]| == |journeys[i].steps|
    ensures problems == CorpusProblems(journeys)
    ensures problems != [] ==> results == []
    ensures problems == [] ==>
              results == DriveAll(AsWritten, only, journeys, worlds) == DriveAll(OtherWay, only, journeys, worlds)
  {
    problems := ValidateCorpus(journeys);
    results := [];
    if problems != [] { return; }
    var i := 0;
    while i < |journeys|
      invariant 0 <= i <= |journeys|
      invariant results == DriveAll(AsWritten, only, journeys[..i], worlds[..i])
                == DriveAll(OtherWay, only, journeys[..i], worlds[..i])
    {
      results := DriveNext(only, journeys, worlds, i, results);
      i := i + 1;
    }
    assert journeys[..i] == journeys && worlds[..i] == worlds;
  }

  method DriveNext(only: set<string>, journeys: seq<Journey>, worlds: seq<seq<Encounter>>, i: nat, sofar: seq<Driven>)
    returns (results: seq<Driven>)
    requires |worlds| == |journeys| && forall i :: 0 <= i < |journeys| ==> |worlds[i]| == |journeys[i].steps|
    requires CorpusProblems(journeys) == [] && i < |journeys|
    requires sofar == DriveAll(AsWritten, only, journeys[..i], worlds[..i])
             == DriveAll(OtherWay, only, journeys[..i], worlds[..i])
    ensures results == DriveAll(AsWritten, only, journeys[..i + 1], worlds[..i + 1])
            == DriveAll(OtherWay, only, journeys[..i + 1], worlds[..i + 1])
  {
    DriveAllStep(AsWritten, only, journeys, worlds, i);
    DriveAllStep(OtherWay, only, journeys, worlds, i);
    results := sofar;
    if Chosen(only, journeys[i]) {
      var driven := DriveOne(journeys, i, worlds[i]);
      results := results + [driven];
    }
  }

  lemma DriveAllStep(rules: Rules, only: set<string>, journeys: seq<Journey>, worlds: seq<seq<Encounter>>, i: nat)
    requires |worlds| == |journeys| && forall i :: 0 <= i < |journeys| ==> |worlds[i]| == |journeys[i].steps|
    requires i < |journeys|
    ensures DriveAll(rules, only, journeys[..i + 1], worlds[..i + 1])
            == DriveAll(rules, only, journeys[..i], worlds[..i])
               + if Chosen(only, journeys[i]) then [Drive(rules, journeys[i].steps, worlds[i])] else []
  {
    assert journeys[..i + 1][..i] == journeys[..i] && worlds[..i + 1][..i] == worlds[..i];
  }

  method DriveOne(journeys: seq<Journey>, i: nat, ws: seq<Encounter>) returns (driven: Driven)
    requires CorpusProblems(journeys) == [] && i < |journeys| && |ws| == |journeys[i].steps|
    ensures driven == Drive(AsWritten, journeys[i].steps, ws) == Drive(OtherWay, journeys[i].steps, ws)
  {
    var a := new Accumulator();
    var result := RunJourney(journeys[i].steps, ws, a);
    driven := Driven(result, a.Fields());
    SwapChangesNothing(journeys, journeys[i], ws);
  }
}
