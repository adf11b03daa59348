/** The check made of a corpus before any journey is driven. */
module Corpus {
  import opened Text
  import opened Classify

  /** A step as data: what it declares, and which of its optional parts it has. */
  datatype Step = Step(
    name: string, byDesign: Option<Declaration>, deadEnd: bool,
    hasFixture: bool, gated: bool, hasArgs: bool, composite: bool, hasAfter: bool,
    modelRun: bool, abortOnBlock: bool)

  datatype Journey = Journey(id: string, steps: seq<Step>)

  datatype Problem = BadShape | NoQuote | BothDeclared | ByDesignUnreachable | DeadEndUnreachable

  datatype Located = Located(journey: string, step: string, problem: Problem)

  /** stepDeclarationProblems. */
  function StepProblems(s: Step): seq<Problem> {
    (if s.byDesign.None? || Valid(s.byDesign.value) then []
     else if s.byDesign.value.shape !in SHAPES then [BadShape] else [NoQuote])
    + (if s.byDesign.Some? && s.deadEnd then [BothDeclared] else [])
    + (if !s.hasArgs && s.byDesign.Some? then [ByDesignUnreachable] else [])
    + (if !s.hasArgs && s.deadEnd then [DeadEndUnreachable] else [])
  }

  predicate Accepts(s: Step) {
    StepProblems(s) == []
  }

  function Locate(id: string, s: Step): (r: seq<Located>)
    ensures |r| == |StepProblems(s)|
  {
    var ps := StepProblems(s);
    seq(|ps|, k requires 0 <= k < |ps| => Located(id, s.name, ps[k]))
  }

  function JourneyProblems(id: string, steps: seq<Step>): seq<Located> {
    if steps == [] then [] else JourneyProblems(id, steps[..|steps| - 1]) + Locate(id, steps[|steps| - 1])
  }

  /** Every problem of every step, in the order of the corpus. */
  function CorpusProblems(journeys: seq<Journey>): seq<Located> {
    if journeys == [] then []
    else
      var last := journeys[|journeys| - 1];
      CorpusProblems(journeys[..|journeys| - 1]) + JourneyProblems(last.id, last.steps)
  }

  /** validateCorpus: the run goes ahead only if nothing is listed. */
  method ValidateCorpus(journeys: seq<Journey>) returns (problems: seq<Located>)
    ensures problems == CorpusProblems(journeys)
  {
    problems := [];
    var i := 0;
    while i < |journeys|
      invariant 0 <= i <= |journeys|
      invariant problems == CorpusProblems(journeys[..i])
    {
      assert journeys[..i + 1][..i] == journeys[..i];
      var more := ValidateJourney(journeys[i]);
      problems := problems + more;
      i := i + 1;
    }
    assert journeys[..i] == journeys;
  }

  method ValidateJourney(journey: Journey) returns (problems: seq<Located>)
    ensures problems == JourneyProblems(journey.id, journey.steps)
  {
    problems := [];
    var i := 0;
    while i < |journey.steps|
      invariant 0 <= i <= |journey.steps|
      invariant problems == JourneyProblems(journey.id, journey.steps[..i])
    {
      assert journey.steps[..i + 1][..i] == journey.steps[..i];
      problems := problems + Locate(journey.id, journey.steps[i]);
      i := i + 1;
    }
    assert journey.steps[..i] == journey.steps;
  }

  lemma {:induction false} JourneyListed(id: string, steps: seq<Step>, x: Located)
    ensures x in JourneyProblems(id, steps)
            <==> exists s :: s in steps && x.problem in StepProblems(s) && x == Located(id, s.name, x.problem)
  {
    if steps != [] {
      var n := |steps| - 1;
      JourneyListed(id, steps[..n], x);
      assert steps == steps[..n] + [steps[n]];
      LocateHolds(id, steps[n], x);
    }
  }

  lemma LocateHolds(id: string, s: Step, x: Located)
    ensures x in Locate(id, s) <==> x.problem in StepProblems(s) && x == Located(id, s.name, x.problem)
  {
    var ps := StepProblems(s);
    if x.problem in ps && x == Located(id, s.name, x.problem) {
      var k :| 0 <= k < |ps| && ps[k] == x.problem;
      assert Locate(id, s)[k] == x;
    }
  }

  /** What is listed is exactly each problem of each step, under its journey and its name. */
  lemma {:induction false} Listed(journeys: seq<Journey>, x: Located)
    ensures x in CorpusProblems(journeys)
            <==> exists j, s ::
                   && j in journeys && s in j.steps
                   && x.problem in StepProblems(s) && x == Located(j.id, s.name, x.problem)
  {
    if journeys != [] {
      var n := |journeys| - 1;
      Listed(journeys[..n], x);
      assert journeys == journeys[..n] + [journeys[n]];
      JourneyListed(journeys[n].id, journeys[n].steps, x);
    }
  }

  lemma StepListed(journeys: seq<Journey>, j: Journey, s: Step)
    requires j in journeys && s in j.steps && CorpusProblems(journeys) == []
    ensures Accepts(s)
  {
    if StepProblems(s) != [] { Listed(journeys, Located(j.id, s.name, StepProblems(s)[0])); }
  }

  lemma SomeStepListed(journeys: seq<Journey>) returns (j: Journey, s: Step)
    requires CorpusProblems(journeys) != []
    ensures j in journeys && s in j.steps && !Accepts(s)
  {
    var x := CorpusProblems(journeys)[0];
    Listed(journeys, x);
    j, s :| j in journeys && s in j.steps && x.problem in StepProblems(s) && x == Located(j.id, s.name, x.problem);
  }

  /** Nothing is listed exactly when every step is acceptable. */
  lemma NothingListed(journeys: seq<Journey>)
    ensures CorpusProblems(journeys) == [] <==> forall j, s :: j in journeys && s in j.steps ==> Accepts(s)
  {
    if CorpusProblems(journeys) == [] {
      forall j, s | j in journeys && s in j.steps
        ensures Accepts(s)
      {
        StepListed(journeys, j, s);
      }
    } else {
      var j, s := SomeStepListed(journeys);
    }
  }

  /** An acceptable step declares one thing at most, and has arguments if it declares anything. */
  lemma AcceptedDeclares(s: Step)
    requires Accepts(s)
    ensures !(s.byDesign.Some? && s.deadEnd) && (s.byDesign.Some? || s.deadEnd ==> s.hasArgs)
  {
  }
}
