/** Totals over a run and the comparison of two runs. */
module Compare {
  import opened Text
  import opened Metrics

  datatype Derivation = Measured | Proxy | Unobservable

  datatype Dimension = Dimension(value: Option<int>, derivation: Derivation, note: string)

  datatype MetricSet = MetricSet(
    humanPrompts: Dimension, manualTokens: Dimension, commands: Dimension,
    blocks: BlockCounts, recovery: Dimension, modelRuns: Dimension, surface: Dimension, git: Dimension)

  /** Status is the text it is stored as, so any text may turn up in a results file. */
  datatype Journey = Journey(id: string, status: string, metrics: MetricSet)

  const COMPLETED: string := "completed"
  const UNSUPPORTED: string := "unsupported"
  const FAILED: string := "failed"

  function Sure(value: int): Dimension {
    Dimension(Some(value), Measured, "")
  }

  /** metrics: what an accumulator reports at the end of its run. */
  function MetricsOf(s: State, modelRunNote: string): MetricSet {
    MetricSet(Dimension(Some(s.prompts), Measured, "non-TTY run"),
              Dimension(Some(s.manualTokens), Measured, "hand-assembled value"),
              Sure(s.commands), s.blocks, Sure(s.recovery),
              if modelRunNote == "" then Sure(s.modelRuns) else Dimension(Some(s.modelRuns), Proxy, modelRunNote),
              if s.stderrCaptured then Sure(s.stderrBytes) else Dimension(None, Unobservable, "stderr was a terminal"),
              if s.gitObserved then Dimension(Some(s.gitCalls), Measured, "informational")
              else Dimension(None, Unobservable, "no trace"))
  }

  // ---------------------------------------------------------------- the rows

  datatype Row =
    | HumanPrompts | ManualTokens | Commands | BlocksTotal | SelfRecovered | InBand | OutOfBand | ByDesign | DeadEnd
    | RecoveryRoundTrips | ModelRuns | SurfaceBytes | GitSubprocesses

  const ROWS: seq<Row> := [
    HumanPrompts, ManualTokens, Commands, BlocksTotal, SelfRecovered, InBand, OutOfBand, ByDesign, DeadEnd,
    RecoveryRoundTrips, ModelRuns, SurfaceBytes, GitSubprocesses]

  /** The value and the label a row shows of a metric set. */
  function Shown(m: MetricSet, row: Row): Dimension {
    match row
    case HumanPrompts => m.humanPrompts
    case ManualTokens => m.manualTokens
    case Commands => m.commands
    case BlocksTotal => Sure(m.blocks.Total())
    case SelfRecovered => Sure(m.blocks.selfRecovered)
    case InBand => Sure(m.blocks.inBand)
    case OutOfBand => Sure(m.blocks.outOfBand)
    case ByDesign => Sure(m.blocks.byDesign)
    case DeadEnd => Sure(m.blocks.deadEnd)
    case RecoveryRoundTrips => m.recovery
    case ModelRuns => m.modelRuns
    case SurfaceBytes => m.surface
    case GitSubprocesses => m.git
  }

  /** Only these two can be missing from what an accumulator reports. */
  predicate MayBeMissing(row: Row) {
    row == SurfaceBytes || row == GitSubprocesses
  }

  /** What metrics builds: a missing value only where it may be, a proxy only for model runs and
      never without its note. */
  predicate Regular(m: MetricSet) {
    && (forall row: Row :: !MayBeMissing(row) ==> Shown(m, row).value.Some?)
    && (forall row: Row :: Shown(m, row).derivation == Proxy ==> row == ModelRuns && m.modelRuns.note != "")
  }

  lemma MetricsAreRegular(s: State, note: string)
    ensures Regular(MetricsOf(s, note))
    ensures MetricsOf(s, note).modelRuns.derivation == Proxy <==> note != ""
  {
  }

  // ---------------------------------------------------------------- totals

  /** aggregate skips the journeys of these two statuses only. */
  predicate Counted(j: Journey) {
    j.status != UNSUPPORTED && j.status != FAILED
  }

  function ValueOr0(d: Dimension): int {
    if d.value.Some? then d.value.value else 0
  }

  /** The sum of a row over the counted journeys. */
  function RowSum(js: seq<Journey>, row: Row): int {
    if js == [] then 0
    else
      var last := js[|js| - 1];
      RowSum(js[..|js| - 1], row) + if Counted(last) then ValueOr0(Shown(last.metrics, row)) else 0
  }

  function BlockSum(js: seq<Journey>): BlockCounts {
    if js == [] then NONE
    else
      var last := js[|js| - 1];
      if Counted(last) then BlockSum(js[..|js| - 1]).AddAll(last.metrics.blocks) else BlockSum(js[..|js| - 1])
  }

  predicate AllShow(js: seq<Journey>, row: Row) {
    forall j :: j in js && Counted(j) ==> Shown(j.metrics, row).value.Some?
  }

  /** The note of the last counted journey whose model runs are a proxy. */
  function LastProxyNote(js: seq<Journey>): string {
    if js == [] then ""
    else
      var last := js[|js| - 1];
      if Counted(last) && last.metrics.modelRuns.derivation == Proxy then last.metrics.modelRuns.note
      else LastProxyNote(js[..|js| - 1])
  }

  function OrMissing(js: seq<Journey>, row: Row, why: string): Dimension {
    if AllShow(js, row) then Sure(RowSum(js, row)) else Dimension(None, Unobservable, why)
  }

  const NO_STDERR: string := "at least one journey could not capture stderr"
  const NO_GIT: string := "at least one journey could not observe git invocations"

  /** The totals of a list of journeys, row by row. */
  function Totals(js: seq<Journey>): MetricSet {
    var note := LastProxyNote(js);
    MetricSet(Sure(RowSum(js, HumanPrompts)), Sure(RowSum(js, ManualTokens)), Sure(RowSum(js, Commands)),
              BlockSum(js), Sure(RowSum(js, RecoveryRoundTrips)),
              if note != "" then Dimension(Some(RowSum(js, ModelRuns)), Proxy, note) else Sure(RowSum(js, ModelRuns)),
              OrMissing(js, SurfaceBytes, NO_STDERR), OrMissing(js, GitSubprocesses, NO_GIT))
  }

  /** addDimension: a missing value on either side leaves the target alone. */
  function AddDimension(target: Dimension, source: Dimension): Dimension {
    if target.value.None? || source.value.None? then target
    else target.(value := Some(target.value.value + source.value.value))
  }

  /** The running totals of aggregate before its final labels. */
  function Plain(js: seq<Journey>): MetricSet {
    MetricSet(Sure(RowSum(js, HumanPrompts)), Sure(RowSum(js, ManualTokens)), Sure(RowSum(js, Commands)),
              BlockSum(js), Sure(RowSum(js, RecoveryRoundTrips)), Sure(RowSum(js, ModelRuns)),
              Sure(RowSum(js, SurfaceBytes)), Sure(RowSum(js, GitSubprocesses)))
  }

  /** What aggregate does with a journey. */
  datatype Fate = Adds | Lacks | Fails

  function FateOf(j: Journey): Fate {
    if j.status == UNSUPPORTED then Lacks else if j.status == FAILED then Fails else Adds
  }

  /** The positions of the journeys of one fate. */
  function Among(js: seq<Journey>, f: Fate): set<int> {
    set i | 0 <= i < |js| && FateOf(js[i]) == f
  }

  lemma AmongStep(js: seq<Journey>, i: nat, f: Fate)
    requires i < |js|
    ensures |Among(js[..i + 1], f)| == |Among(js[..i], f)| + if FateOf(js[i]) == f then 1 else 0
  {
    var before := Among(js[..i], f);
    assert Among(js[..i + 1], f) == if FateOf(js[i]) == f then before + {i} else before;
  }

  /** aggregate: one pass that adds up the journeys it counts and labels the result afterwards. */
  method Aggregate(journeys: seq<Journey>) returns (total: MetricSet, counted: nat, unsupported: nat, failed: nat)
    ensures total == Totals(journeys)
    ensures counted == |Among(journeys, Adds)| && unsupported == |Among(journeys, Lacks)|
            && failed == |Among(journeys, Fails)|
  {
    total := MetricSet(Sure(0), Sure(0), Sure(0), NONE, Sure(0), Sure(0), Sure(0), Sure(0));
    counted, unsupported, failed := 0, 0, 0;
    var note := "";
    var surfaceShown, gitShown := true, true;
    var i := 0;
    while i < |journeys|
      invariant 0 <= i <= |journeys|
      invariant total == Plain(journeys[..i]) && note == LastProxyNote(journeys[..i])
      invariant surfaceShown == AllShow(journeys[..i], SurfaceBytes)
                && gitShown == AllShow(journeys[..i], GitSubprocesses)
      invariant counted == |Among(journeys[..i], Adds)| && unsupported == |Among(journeys[..i], Lacks)|
      invariant failed == |Among(journeys[..i], Fails)|
    {
      var journey := journeys[i];
      AmongStep(journeys, i, Adds);
      AmongStep(journeys, i, Lacks);
      AmongStep(journeys, i, Fails);
      PlainStep(journeys, i);
      LabelStep(journeys, i);
      i := i + 1;
      if journey.status == UNSUPPORTED {
        unsupported := unsupported + 1;
        continue;
      }
      if journey.status == FAILED {
        failed := failed + 1;
        continue;
      }
      counted := counted + 1;
      total := Added(total, journey.metrics);
      if journey.metrics.modelRuns.derivation == Proxy { note := journey.metrics.modelRuns.note; }
      if journey.metrics.surface.value.None? { surfaceShown := false; }
      if journey.metrics.git.value.None? { gitShown := false; }
    }
    assert journeys[..i] == journeys;
    if note != "" {
      total := total.(modelRuns := Dimension(total.modelRuns.value, Proxy, note));
    }
    if !surfaceShown {
      total := total.(surface := Dimension(None, Unobservable, NO_STDERR));
    }
    if !gitShown {
      total := total.(git := Dimension(None, Unobservable, NO_GIT));
    }
  }

  function Added(t: MetricSet, m: MetricSet): MetricSet {
    MetricSet(AddDimension(t.humanPrompts, m.humanPrompts), AddDimension(t.manualTokens, m.manualTokens),
              AddDimension(t.commands, m.commands), t.blocks.AddAll(m.blocks), AddDimension(t.recovery, m.recovery),
              AddDimension(t.modelRuns, m.modelRuns), AddDimension(t.surface, m.surface), AddDimension(t.git, m.git))
  }

  lemma RowStep(js: seq<Journey>, i: nat, row: Row)
    requires i < |js|
    ensures RowSum(js[..i + 1], row)
            == RowSum(js[..i], row) + if Counted(js[i]) then ValueOr0(Shown(js[i].metrics, row)) else 0
  {
    assert js[..i + 1][..i] == js[..i];
  }

  lemma ShowStep(js: seq<Journey>, i: nat, row: Row)
    requires i < |js|
    ensures AllShow(js[..i + 1], row)
            <==> AllShow(js[..i], row) && (Counted(js[i]) ==> Shown(js[i].metrics, row).value.Some?)
  {
    assert js[..i + 1] == js[..i] + [js[i]];
  }

  lemma BlockStep(js: seq<Journey>, i: nat)
    requires i < |js|
    ensures BlockSum(js[..i + 1])
            == if Counted(js[i]) then BlockSum(js[..i]).AddAll(js[i].metrics.blocks) else BlockSum(js[..i])
  {
    assert js[..i + 1][..i] == js[..i];
  }

  lemma LabelStep(js: seq<Journey>, i: nat)
    requires i < |js|
    ensures var m := js[i].metrics;
      && LastProxyNote(js[..i + 1])
         == (if Counted(js[i]) && m.modelRuns.derivation == Proxy then m.modelRuns.note else LastProxyNote(js[..i]))
      && (AllShow(js[..i + 1], SurfaceBytes)
          <==> AllShow(js[..i], SurfaceBytes) && (Counted(js[i]) ==> m.surface.value.Some?))
      && (AllShow(js[..i + 1], GitSubprocesses)
          <==> AllShow(js[..i], GitSubprocesses) && (Counted(js[i]) ==> m.git.value.Some?))
  {
    assert js[..i + 1][..i] == js[..i];
    ShowStep(js, i, SurfaceBytes);
    ShowStep(js, i, GitSubprocesses);
  }

  lemma RowAdds(js: seq<Journey>, i: nat, row: Row)
    requires i < |js|
    ensures Sure(RowSum(js[..i + 1], row))
            == if Counted(js[i]) then AddDimension(Sure(RowSum(js[..i], row)), Shown(js[i].metrics, row))
              else Sure(RowSum(js[..i], row))
  {
    RowStep(js, i, row);
  }

  lemma PlainStep(js: seq<Journey>, i: nat)
    requires i < |js|
    ensures Plain(js[..i + 1]) == if Counted(js[i]) then Added(Plain(js[..i]), js[i].metrics) else Plain(js[..i])
  {
    BlockStep(js, i);
    RowAdds(js, i, HumanPrompts);
    RowAdds(js, i, ManualTokens);
    RowAdds(js, i, Commands);
    RowAdds(js, i, RecoveryRoundTrips);
    RowAdds(js, i, ModelRuns);
    RowAdds(js, i, SurfaceBytes);
    RowAdds(js, i, GitSubprocesses);
  }

  // ---------------------------------------------------------------- the comparison

  /** byID: of several journeys with one id the last stays. */
  function ById(js: seq<Journey>): map<string, Journey> {
    if js == [] then map[] else ById(js[..|js| - 1])[js[|js| - 1].id := js[|js| - 1]]
  }

  /** Completed in both runs. */
  predicate Comparable(index: map<string, Journey>, j: Journey) {
    j.id in index && index[j.id].status == COMPLETED && j.status == COMPLETED
  }

  /** The journeys of a run that have, or have not, a completed counterpart. */
  function Kept(index: map<string, Journey>, js: seq<Journey>, want: bool): (r: seq<Journey>)
    ensures forall j :: j in r <==> j in js && Comparable(index, j) == want
  {
    if js == [] then []
    else
      var last := js[|js| - 1];
      Kept(index, js[..|js| - 1], want) + if Comparable(index, last) == want then [last] else []
  }

  function Counterparts(index: map<string, Journey>, js: seq<Journey>): (r: seq<Journey>)
    requires forall j :: j in js ==> j.id in index
    ensures |r| == |js| && forall i :: 0 <= i < |js| ==> r[i] == index[js[i].id]
  {
    if js == [] then [] else Counterparts(index, js[..|js| - 1]) + [index[js[|js| - 1].id]]
  }

  function Ids(js: seq<Journey>): (r: seq<string>)
    ensures |r| == |js| && forall i :: 0 <= i < |js| ==> r[i] == js[i].id
  {
    if js == [] then [] else Ids(js[..|js| - 1]) + [js[|js| - 1].id]
  }

  datatype Line = Line(row: Row, before: Option<int>, after: Option<int>, delta: Option<int>, derivation: Derivation)

  datatype Report = Report(comparable: seq<string>, excluded: seq<string>, lines: seq<Line>)

  function LineOf(before: MetricSet, after: MetricSet, row: Row): Line {
    var b, a := Shown(before, row), Shown(after, row);
    Line(row, b.value, a.value,
         if b.value.Some? && a.value.Some? then Some(a.value.value - b.value.value) else None,
         if a.derivation == Proxy || b.derivation == Proxy then Proxy else b.derivation)
  }

  function LinesOf(before: MetricSet, after: MetricSet): (r: seq<Line>)
    ensures |r| == |ROWS| && forall i :: 0 <= i < |ROWS| ==> r[i] == LineOf(before, after, ROWS[i])
  {
    seq(|ROWS|, i requires 0 <= i < |ROWS| => LineOf(before, after, ROWS[i]))
  }

  /** Row by row, the totals of the journeys completed in both runs. */
  function ReportOf(before: seq<Journey>, after: seq<Journey>): Report {
    var index := ById(before);
    var kept := Kept(index, after, true);
    Report(Ids(kept), Ids(Kept(index, after, false)), LinesOf(Totals(Counterparts(index, kept)), Totals(kept)))
  }

  method Index(js: seq<Journey>) returns (index: map<string, Journey>)
    ensures index == ById(js)
  {
    index := map[];
    var i := 0;
    while i < |js|
      invariant 0 <= i <= |js|
      invariant index == ById(js[..i])
    {
      assert js[..i + 1][..i] == js[..i];
      index := index[js[i].id := js[i]];
      i := i + 1;
    }
    assert js[..i] == js;
  }

  lemma KeptStep(index: map<string, Journey>, js: seq<Journey>, i: nat)
    requires i < |js|
    ensures Kept(index, js[..i + 1], true)
            == if Comparable(index, js[i]) then Kept(index, js[..i], true) + [js[i]] else Kept(index, js[..i], true)
    ensures Kept(index, js[..i + 1], false)
            == if Comparable(index, js[i]) then Kept(index, js[..i], false) else Kept(index, js[..i], false) + [js[i]]
  {
    assert js[..i + 1][..i] == js[..i];
  }

  lemma IdsAppend(js: seq<Journey>, j: Journey)
    ensures Ids(js + [j]) == Ids(js) + [j.id]
  {
    assert (js + [j])[..|js|] == js;
  }

  lemma CounterpartsAppend(index: map<string, Journey>, js: seq<Journey>, j: Journey)
    requires (forall k :: k in js ==> k.id in index) && j.id in index
    ensures Counterparts(index, js + [j]) == Counterparts(index, js) + [index[j.id]]
  {
    assert (js + [j])[..|js|] == js;
  }

  /** The loop of buildComparison that sorts the journeys of the later run into two lists. */
  method Select(index: map<string, Journey>, after: seq<Journey>)
    returns (befores: seq<Journey>, afters: seq<Journey>, comparable: seq<string>, excluded: seq<string>)
    ensures afters == Kept(index, after, true) && befores == Counterparts(index, afters)
    ensures comparable == Ids(afters) && excluded == Ids(Kept(index, after, false))
  {
    befores, afters, comparable, excluded := [], [], [], [];
    ghost var dropped: seq<Journey> := [];
    var i := 0;
    while i < |after|
      invariant 0 <= i <= |after|
      invariant afters == Kept(index, after[..i], true) && dropped == Kept(index, after[..i], false)
      invariant befores == Counterparts(index, afters) && comparable == Ids(afters) && excluded == Ids(dropped)
    {
      var journey := after[i];
      KeptStep(index, after, i);
      i := i + 1;
      if journey.id !in index || index[journey.id].status != COMPLETED || journey.status != COMPLETED {
        IdsAppend(dropped, journey);
        excluded := excluded + [journey.id];
        dropped := dropped + [journey];
        continue;
      }
      IdsAppend(afters, journey);
      CounterpartsAppend(index, afters, journey);
      comparable := comparable + [journey.id];
      befores := befores + [index[journey.id]];
      afters := afters + [journey];
    }
    assert after[..i] == after;
  }

  /** buildComparison. */
  method BuildComparison(before: seq<Journey>, after: seq<Journey>) returns (report: Report)
    ensures report == ReportOf(before, after)
  {
    var index := Index(before);
    var befores, afters, comparable, excluded := Select(index, after);
    var b, _, _, _ := Aggregate(befores);
    var a, _, _, _ := Aggregate(afters);
    var lines := WriteLines(b, a);
    report := Report(comparable, excluded, lines);
  }

  method WriteLines(before: MetricSet, after: MetricSet) returns (lines: seq<Line>)
    ensures lines == LinesOf(before, after)
  {
    lines := [];
    var rows := ROWS;
    var i := 0;
    while i < |rows|
      invariant 0 <= i <= |rows| && |lines| == i
      invariant forall k :: 0 <= k < i ==> lines[k] == LineOf(before, after, rows[k])
    {
      lines := lines + [LineOf(before, after, rows[i])];
      i := i + 1;
    }
  }

  // ---------------------------------------------------------------- what a line says

  predicate Distinct(js: seq<Journey>) {
    forall i, k :: 0 <= i < k < |js| ==> js[i].id != js[k].id
  }

  /** A run as the benchmark writes it: no id twice, and metrics that metrics built. */
  predicate FromRun(js: seq<Journey>) {
    Distinct(js) && forall j :: j in js ==> Regular(j.metrics)
  }

  predicate AllCompleted(js: seq<Journey>) {
    forall j :: j in js ==> j.status == COMPLETED && Regular(j.metrics)
  }

  lemma {:induction false} BlockRows(js: seq<Journey>, row: Row)
    requires row in {BlocksTotal, SelfRecovered, InBand, OutOfBand, ByDesign, DeadEnd}
    ensures RowSum(js, row) == ValueOr0(Shown(Totals(js), row))
  {
    if js != [] {
      BlockRows(js[..|js| - 1], row);
      BlockStep(js, |js| - 1);
      assert js[..|js| - 1 + 1] == js;
    }
  }

  lemma {:induction false} LastNote(js: seq<Journey>)
    requires AllCompleted(js)
    ensures LastProxyNote(js) != "" <==> exists j :: j in js && j.metrics.modelRuns.derivation == Proxy
  {
    if js != [] {
      var most, last := js[..|js| - 1], js[|js| - 1];
      assert js == most + [last];
      LastNote(most);
      assert Shown(last.metrics, ModelRuns).derivation == last.metrics.modelRuns.derivation;
    }
  }

  lemma TotalsLabel(js: seq<Journey>, row: Row)
    requires AllCompleted(js)
    ensures Shown(Totals(js), row).derivation == Proxy
            <==> row == ModelRuns && exists j :: j in js && j.metrics.modelRuns.derivation == Proxy
  {
    LastNote(js);
  }

  lemma TotalsValue(js: seq<Journey>, row: Row)
    requires AllCompleted(js)
    ensures Shown(Totals(js), row).value == if AllHave(js, row) then Some(RowSum(js, row)) else None
  {
    if row in {BlocksTotal, SelfRecovered, InBand, OutOfBand, ByDesign, DeadEnd} {
      BlockRows(js, row);
    }
  }

  /** The totals show a row when every journey does, and then show the sum. */
  lemma TotalsShow(js: seq<Journey>, row: Row)
    requires AllCompleted(js)
    ensures Shown(Totals(js), row).value == if AllHave(js, row) then Some(RowSum(js, row)) else None
    ensures Shown(Totals(js), row).derivation == Proxy
            <==> row == ModelRuns && exists j :: j in js && j.metrics.modelRuns.derivation == Proxy
  {
    TotalsLabel(js, row);
    TotalsValue(js, row);
  }

  lemma {:induction false} ByIdFinds(js: seq<Journey>, j: Journey)
    requires Distinct(js) && j in js
    ensures j.id in ById(js) && ById(js)[j.id] == j
  {
    var n := |js| - 1;
    if j != js[n] {
      assert js == js[..n] + [js[n]];
      ByIdFinds(js[..n], j);
      var i :| 0 <= i < n && js[i] == j;
    }
  }

  lemma {:induction false} ByIdHolds(js: seq<Journey>, id: string)
    requires id in ById(js)
    ensures ById(js)[id] in js && ById(js)[id].id == id
  {
    var n := |js| - 1;
    if js[n].id != id { ByIdHolds(js[..n], id); }
  }

  lemma {:induction false} KeptDistinct(index: map<string, Journey>, js: seq<Journey>, want: bool)
    requires Distinct(js)
    ensures Distinct(Kept(index, js, want))
  {
    if js != [] {
      var n := |js| - 1;
      KeptDistinct(index, js[..n], want);
      forall j | j in Kept(index, js[..n], want)
        ensures j.id != js[n].id
      {
        var i :| 0 <= i < n && js[i] == j;
      }
    }
  }

  /** What both runs completed, as each of them recorded it. */
  lemma Sides(before: seq<Journey>, after: seq<Journey>)
    requires FromRun(before) && FromRun(after)
    ensures var kept := Kept(ById(before), after, true); var befores := Counterparts(ById(before), kept);
      && AllCompleted(kept) && AllCompleted(befores) && Distinct(kept) && Distinct(befores)
      && (forall i :: 0 <= i < |kept| ==> befores[i].id == kept[i].id)
  {
    var index := ById(before);
    var kept := Kept(index, after, true);
    KeptDistinct(index, after, true);
    forall i | 0 <= i < |kept|
      ensures index[kept[i].id].id == kept[i].id && index[kept[i].id] in before
    {
      assert Comparable(index, kept[i]);
      ByIdHolds(before, kept[i].id);
    }
  }

  /** The sum over the comparable journeys of after minus before. */
  function Difference(befores: seq<Journey>, afters: seq<Journey>, row: Row): int
    requires |befores| == |afters|
  {
    if befores == [] then 0
    else
      var n := |befores| - 1;
      Difference(befores[..n], afters[..n], row)
      + (ValueOr0(Shown(afters[n].metrics, row)) - ValueOr0(Shown(befores[n].metrics, row)))
  }

  lemma {:induction false} DifferenceOfSums(befores: seq<Journey>, afters: seq<Journey>, row: Row)
    requires |befores| == |afters| && AllCompleted(befores) && AllCompleted(afters)
    ensures Difference(befores, afters, row) == RowSum(afters, row) - RowSum(befores, row)
  {
    if befores != [] {
      var n := |befores| - 1;
      DifferenceOfSums(befores[..n], afters[..n], row);
      assert befores[n] in befores && afters[n] in afters;
    }
  }

  predicate AllHave(js: seq<Journey>, row: Row) {
    forall j :: j in js ==> Shown(j.metrics, row).value.Some?
  }

  /** Some comparable journey's model runs are a proxy. */
  ghost predicate ProxyAmong(befores: seq<Journey>, kept: seq<Journey>, row: Row) {
    row == ModelRuns && exists j :: (j in befores || j in kept) && j.metrics.modelRuns.derivation == Proxy
  }

  /** A delta is shown exactly when no comparable journey lacks the number on either side, and is
      then the sum over the journeys completed in both runs of after minus before. A proxy in any
      of them labels the line. */
  lemma LinesMean(before: seq<Journey>, after: seq<Journey>, i: nat)
    requires FromRun(before) && FromRun(after) && i < |ROWS|
    ensures var kept := Kept(ById(before), after, true); var befores := Counterparts(ById(before), kept);
      var line := ReportOf(before, after).lines[i]; var row := ROWS[i];
      && line.row == row
      && (line.delta.Some? <==> AllHave(befores, row) && AllHave(kept, row))
      && (line.delta.Some? ==> line.delta.value == Difference(befores, kept, row))
      && (line.derivation == Proxy <==> ProxyAmong(befores, kept, row))
  {
    var kept := Kept(ById(before), after, true);
    var befores := Counterparts(ById(before), kept);
    Sides(before, after);
    LineMeans(befores, kept, ROWS[i]);
  }

  lemma LineMeans(befores: seq<Journey>, kept: seq<Journey>, row: Row)
    requires |befores| == |kept| && AllCompleted(befores) && AllCompleted(kept)
    ensures var line := LineOf(Totals(befores), Totals(kept), row);
      && line.row == row
      && (line.delta.Some? <==> AllHave(befores, row) && AllHave(kept, row))
      && (line.delta.Some? ==> line.delta.value == Difference(befores, kept, row))
      && (line.derivation == Proxy <==> ProxyAmong(befores, kept, row))
  {
    TotalsShow(kept, row);
    TotalsShow(befores, row);
    DifferenceOfSums(befores, kept, row);
  }

  // ---------------------------------------------------------------- swapping the runs

  ghost predicate SameElements(a: seq<Journey>, b: seq<Journey>) {
    forall j :: j in a <==> j in b
  }

  lemma {:induction false} SumWithout(js: seq<Journey>, k: nat, row: Row)
    requires k < |js|
    ensures RowSum(js, row) == RowSum(js[..k] + js[k + 1..], row)
                               + if Counted(js[k]) then ValueOr0(Shown(js[k].metrics, row)) else 0
    decreases |js|
  {
    var n := |js| - 1;
    var rest := js[..k] + js[k + 1..];
    if k == n {
      assert rest == js[..n];
    } else {
      SumWithout(js[..n], k, row);
      assert rest[..n - 1] == js[..n][..k] + js[..n][k + 1..];
      assert rest[n - 1] == js[n] && |rest| == n;
    }
  }

  lemma {:induction false} SameSum(a: seq<Journey>, b: seq<Journey>, row: Row)
    requires Distinct(a) && Distinct(b) && SameElements(a, b)
    ensures RowSum(a, row) == RowSum(b, row)
    decreases |a|
  {
    assert b != [] ==> b[0] in a;
    if a != [] {
      var n := |a| - 1;
      assert a[n] in b;
      var k :| 0 <= k < |b| && b[k] == a[n];
      SumWithout(b, k, row);
      WithoutOne(a, b, k);
      SameSum(a[..n], b[..k] + b[k + 1..], row);
    }
  }

  lemma WithoutOne(a: seq<Journey>, b: seq<Journey>, k: nat)
    requires a != [] && k < |b| && b[k] == a[|a| - 1] && Distinct(a) && Distinct(b) && SameElements(a, b)
    ensures var rest := b[..k] + b[k + 1..];
      Distinct(a[..|a| - 1]) && Distinct(rest) && SameElements(a[..|a| - 1], rest)
  {
    var n := |a| - 1;
    var rest := b[..k] + b[k + 1..];
    assert a == a[..n] + [a[n]] && b == b[..k] + [b[k]] + b[k + 1..];
    assert forall i :: 0 <= i < |rest| ==> rest[i] == b[if i < k then i else i + 1];
    forall j
      ensures j in rest <==> j in b && j != b[k]
    {
      if j in rest {
        var i :| 0 <= i < |rest| && rest[i] == j;
        assert b[if i < k then i else i + 1].id != b[k].id;
      }
    }
    forall j
      ensures j in a[..n] <==> j in a && j != a[n]
    {
      if j in a[..n] {
        var i :| 0 <= i < n && a[i] == j;
      }
    }
  }

  /** The later run's side of one comparison holds the journeys of the earlier run's side of the
      swapped one. */
  lemma SidesSwap(x: seq<Journey>, y: seq<Journey>)
    requires FromRun(x) && FromRun(y)
    ensures SameElements(Kept(ById(x), y, true), Counterparts(ById(y), Kept(ById(y), x, true)))
  {
    forall j
      ensures j in Kept(ById(x), y, true) <==> j in Counterparts(ById(y), Kept(ById(y), x, true))
    {
      if j in Counterparts(ById(y), Kept(ById(y), x, true)) { BackIsKept(x, y, j); }
      if j in Kept(ById(x), y, true) { KeptIsBack(x, y, j); }
    }
  }

  lemma BackIsKept(x: seq<Journey>, y: seq<Journey>, j: Journey)
    requires FromRun(x) && FromRun(y) && j in Counterparts(ById(y), Kept(ById(y), x, true))
    ensures j in Kept(ById(x), y, true)
  {
    var other := Kept(ById(y), x, true);
    var back := Counterparts(ById(y), other);
    var i :| 0 <= i < |back| && back[i] == j;
    CounterpartKept(x, y, other[i]);
  }

  lemma KeptIsBack(x: seq<Journey>, y: seq<Journey>, j: Journey)
    requires FromRun(x) && FromRun(y) && j in Kept(ById(x), y, true)
    ensures j in Counterparts(ById(y), Kept(ById(y), x, true))
  {
    var other := Kept(ById(y), x, true);
    CounterpartKept(y, x, j);
    var i :| 0 <= i < |other| && other[i] == ById(x)[j.id];
    assert Counterparts(ById(y), other)[i] == j;
  }

  /** The counterpart of a comparable journey is comparable in its own run, and its counterpart is
      that journey again. */
  lemma CounterpartKept(x: seq<Journey>, y: seq<Journey>, k: Journey)
    requires FromRun(x) && FromRun(y) && k in Kept(ById(y), x, true)
    ensures var j := ById(y)[k.id]; j in Kept(ById(x), y, true) && j.id == k.id && ById(x)[j.id] == k
  {
    ByIdHolds(y, k.id);
    ByIdFinds(x, k);
  }

  function Negated(d: Option<int>): Option<int> {
    if d.Some? then Some(-d.value) else None
  }

  lemma LineSwaps(before: MetricSet, after: MetricSet, before': MetricSet, after': MetricSet, row: Row)
    requires Shown(after', row).value == Shown(before, row).value
             && Shown(before', row).value == Shown(after, row).value
    requires Shown(after', row).derivation == Proxy <==> Shown(before, row).derivation == Proxy
    requires Shown(before', row).derivation == Proxy <==> Shown(after, row).derivation == Proxy
    ensures var there := LineOf(before, after, row); var back := LineOf(before', after', row);
      && back.before == there.after && back.after == there.before && back.delta == Negated(there.delta)
      && (back.derivation == Proxy <==> there.derivation == Proxy)
  {
  }

  /** Swapping the runs swaps the two columns, negates every delta and keeps the proxy label. */
  lemma SwapNegates(before: seq<Journey>, after: seq<Journey>, i: nat)
    requires FromRun(before) && FromRun(after) && i < |ROWS|
    ensures var there := ReportOf(before, after).lines[i]; var back := ReportOf(after, before).lines[i];
      && back.before == there.after && back.after == there.before && back.delta == Negated(there.delta)
      && (back.derivation == Proxy <==> there.derivation == Proxy)
  {
    var kept, kept' := Kept(ById(before), after, true), Kept(ById(after), before, true);
    Sides(before, after);
    Sides(after, before);
    var befores, befores' := Counterparts(ById(before), kept), Counterparts(ById(after), kept');
    SidesSwap(before, after);
    SidesSwap(after, before);
    SameLine(kept, befores', ROWS[i]);
    SameLine(kept', befores, ROWS[i]);
    LineSwaps(Totals(befores), Totals(kept), Totals(befores'), Totals(kept'), ROWS[i]);
  }

  lemma PlainLabel(js: seq<Journey>, row: Row)
    ensures var d := Shown(Totals(js), row);
      d.derivation != Proxy ==> d.derivation == if d.value.Some? then Measured else Unobservable
  {
  }

  lemma ShownLabels(befores: seq<Journey>, kept: seq<Journey>, row: Row)
    requires AllCompleted(befores) && AllCompleted(kept)
    ensures LineOf(Totals(befores), Totals(kept), row).derivation
         == if ProxyAmong(befores, kept, row) then Proxy else if AllHave(befores, row) then Measured else Unobservable
  {
    TotalsShow(befores, row);
    TotalsShow(kept, row);
    PlainLabel(befores, row);
    PlainLabel(kept, row);
  }

  lemma SameHave(a: seq<Journey>, b: seq<Journey>, row: Row)
    requires SameElements(a, b)
    ensures AllHave(a, row) <==> AllHave(b, row)
  {
  }

  /** A label survives the swap exactly when some comparable journey is a proxy, or the comparable
      journeys of the two runs agree on whether all of them have the number. */
  lemma SwapKeepsLabel(before: seq<Journey>, after: seq<Journey>, i: nat)
    requires FromRun(before) && FromRun(after) && i < |ROWS|
    ensures var kept := Kept(ById(before), after, true); var befores := Counterparts(ById(before), kept);
      var there := ReportOf(before, after).lines[i]; var back := ReportOf(after, before).lines[i];
      back.derivation == there.derivation
      <==> ProxyAmong(befores, kept, ROWS[i]) || (AllHave(befores, ROWS[i]) <==> AllHave(kept, ROWS[i]))
  {
    var kept, kept' := Kept(ById(before), after, true), Kept(ById(after), before, true);
    Sides(before, after);
    Sides(after, before);
    var befores, befores' := Counterparts(ById(before), kept), Counterparts(ById(after), kept');
    SidesSwap(before, after);
    SidesSwap(after, before);
    SameHave(kept, befores', ROWS[i]);
    SameHave(kept', befores, ROWS[i]);
    ShownLabels(befores, kept, ROWS[i]);
    ShownLabels(befores', kept', ROWS[i]);
  }

  /** One journey, run with stderr captured and without. */
  function Single(captured: bool): seq<Journey> {
    [Journey("j", COMPLETED, MetricsOf(START.(stderrCaptured := captured), ""))]
  }

  lemma SingleFromRun(captured: bool)
    ensures FromRun(Single(captured)) && ById(Single(captured)) == map["j" := Single(captured)[0]]
  {
    MetricsAreRegular(START.(stderrCaptured := captured), "");
    assert Single(captured)[..0] == [];
  }

  lemma SingleKept(captured: bool)
    ensures Kept(ById(Single(!captured)), Single(captured), true) == Single(captured)
    ensures Counterparts(ById(Single(!captured)), Single(captured)) == Single(!captured)
  {
    SingleFromRun(!captured);
    OneKept(ById(Single(!captured)), Single(captured)[0]);
  }

  lemma OneKept(index: map<string, Journey>, j: Journey)
    requires Comparable(index, j)
    ensures Kept(index, [j], true) == [j] && Counterparts(index, [j]) == [index[j.id]]
  {
    assert [j][..0] == [];
  }

  /** Two runs whose stderr line is measured one way round and unobservable the other. */
  lemma LabelChanges()
    ensures FromRun(Single(true)) && FromRun(Single(false)) && ROWS[11] == SurfaceBytes
    ensures ReportOf(Single(true), Single(false)).lines[11].derivation == Measured
    ensures ReportOf(Single(false), Single(true)).lines[11].derivation == Unobservable
  {
    SingleFromRun(true);
    SingleFromRun(false);
    SingleKept(true);
    SingleKept(false);
    SingleShows(true);
    SingleShows(false);
  }

  lemma SingleShows(captured: bool)
    ensures Shown(Totals(Single(captured)), SurfaceBytes).derivation == if captured then Measured else Unobservable
  {
    assert Single(captured)[0] in Single(captured);
  }

  /** Swapping the runs keeps the set of comparable journeys. */
  lemma SwapKeepsComparable(before: seq<Journey>, after: seq<Journey>, id: string)
    requires FromRun(before) && FromRun(after)
    ensures id in ReportOf(after, before).comparable <==> id in ReportOf(before, after).comparable
  {
    var kept' := Kept(ById(after), before, true);
    Sides(after, before);
    SidesSwap(before, after);
    SameIds(Kept(ById(before), after, true), Counterparts(ById(after), kept'), kept');
  }

  lemma SameLine(a: seq<Journey>, b: seq<Journey>, row: Row)
    requires AllCompleted(a) && AllCompleted(b) && Distinct(a) && Distinct(b) && SameElements(a, b)
    ensures Shown(Totals(a), row).value == Shown(Totals(b), row).value
    ensures Shown(Totals(a), row).derivation == Proxy <==> Shown(Totals(b), row).derivation == Proxy
  {
    TotalsShow(a, row);
    TotalsShow(b, row);
    SameSum(a, b, row);
  }

  lemma SameIds(a: seq<Journey>, b: seq<Journey>, c: seq<Journey>)
    requires SameElements(a, b) && |b| == |c| && forall i :: 0 <= i < |b| ==> b[i].id == c[i].id
    ensures forall id :: id in Ids(a) <==> id in Ids(c)
  {
    forall id
      ensures id in Ids(a) <==> id in Ids(c)
    {
      if id in Ids(a) {
        var i :| 0 <= i < |a| && Ids(a)[i] == id;
        assert a[i] in b;
        var k :| 0 <= k < |b| && b[k] == a[i];
        assert Ids(c)[k] == id;
      }
      if id in Ids(c) {
        var i :| 0 <= i < |c| && Ids(c)[i] == id;
        assert b[i] in a;
        var k :| 0 <= k < |a| && a[k] == b[i];
        assert Ids(a)[k] == id;
      }
    }
  }

  /** Every journey of the later run is listed, as comparable or as excluded; a journey only the
      earlier run has is listed in neither place. */
  lemma ListedIff(before: seq<Journey>, after: seq<Journey>, id: string)
    ensures var r := ReportOf(before, after);
      id in r.comparable || id in r.excluded <==> exists j :: j in after && j.id == id
  {
    var yes, no := Kept(ById(before), after, true), Kept(ById(before), after, false);
    if j :| j in after && j.id == id {
      assert j in yes || j in no;
      if j in yes {
        var k :| 0 <= k < |yes| && yes[k] == j;
        assert Ids(yes)[k] == id;
      } else {
        var k :| 0 <= k < |no| && no[k] == j;
        assert Ids(no)[k] == id;
      }
    }
    if id in Ids(yes) {
      var k :| 0 <= k < |yes| && Ids(yes)[k] == id;
      assert yes[k] in after;
    }
    if id in Ids(no) {
      var k :| 0 <= k < |no| && Ids(no)[k] == id;
      assert no[k] in after;
    }
  }
}
