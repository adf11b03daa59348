/** The capability probe and its cache: answers asked for once per key. */
module Probe {
  import opened Text
  import opened Envelope
  import opened Classify

  /** A capability: a verb with the flags its help must mention, or a complete argv of its own. */
  datatype Capability = Capability(verb: seq<string>, flags: seq<string>, probe: seq<string>)

  /** What the cache is asked for. */
  datatype Query = HelpOf(verb: seq<string>) | ShapeOf(argv: seq<string>)

  function QueryOf(c: Capability): Query {
    if c.probe != [] then ShapeOf(c.probe) else HelpOf(c.verb)
  }

  function Argv(q: Query): seq<string> {
    match q
    case HelpOf(verb) => verb + ["--help"]
    case ShapeOf(argv) => argv
  }

  const SENTINEL: string := "\0unsupported"
  const MARK: char := 1 as char

  function CacheKey(q: Query): string {
    match q
    case HelpOf(verb) => Join(verb, " ")
    case ShapeOf(argv) => [MARK] + Join(argv, " ")
  }

  /** What one invocation puts in the cache. */
  function Stored(binary: seq<string> -> Observation, q: Query): string {
    var o := binary(Argv(q));
    if IsUnsupported(o) then SENTINEL
    else match q
      case HelpOf(_) => Emitted(o)
      case ShapeOf(_) => ""
  }

  /** The first flag the help does not mention. */
  function FirstMissing(help: string, flags: seq<string>): Option<string> {
    if flags == [] then None
    else if !Mentions(help, flags[0]) then Some(flags[0])
    else FirstMissing(help, flags[1..])
  }

  datatype Answer = Supported | NoVerb(key: string) | NoFlag(key: string, flag: string) | NoSurface(argv: string)

  /** The answer a stored text gives. */
  function Reading(c: Capability, stored: string): Answer {
    if c.probe != [] then
      if stored == SENTINEL then NoSurface(Join(c.probe, " ")) else Supported
    else if stored == SENTINEL then NoVerb(Join(c.verb, " "))
    else match FirstMissing(stored, c.flags)
      case None => Supported
      case Some(flag) => NoFlag(Join(c.verb, " "), flag)
  }

  /** The answer without a cache, from what the binary said. */
  function Uncached(binary: seq<string> -> Observation, c: Capability): Answer {
    var o := binary(Argv(QueryOf(c)));
    if c.probe != [] then
      if IsUnsupported(o) then NoSurface(Join(c.probe, " ")) else Supported
    else if IsUnsupported(o) then NoVerb(Join(c.verb, " "))
    else match FirstMissing(Emitted(o), c.flags)
      case None => Supported
      case Some(flag) => NoFlag(Join(c.verb, " "), flag)
  }

  function UncachedAll(binary: seq<string> -> Observation, cs: seq<Capability>): (r: seq<Answer>)
    ensures |r| == |cs|
  {
    if cs == [] then [] else UncachedAll(binary, cs[..|cs| - 1]) + [Uncached(binary, cs[|cs| - 1])]
  }

  /** Real help always holds the line end between the two streams, so it is never taken for the
      sentinel. */
  lemma SentinelIsUnique(binary: seq<string> -> Observation, c: Capability)
    ensures Reading(c, Stored(binary, QueryOf(c))) == Uncached(binary, c)
  {
    var o := binary(Argv(QueryOf(c)));
    assert Emitted(o)[|o.stdout|] == '\n';
    assert forall i :: 0 <= i < |SENTINEL| ==> SENTINEL[i] != '\n';
  }

  // ---------------------------------------------------------------- the cache as a value

  /** The cache after one query, when store says what a query puts in it. */
  function After(store: Query -> string, cache: map<string, string>, q: Query): (r: map<string, string>)
    ensures CacheKey(q) in r
  {
    if CacheKey(q) in cache then cache else cache[CacheKey(q) := store(q)]
  }

  function Filled(store: Query -> string, qs: seq<Query>): map<string, string> {
    if qs == [] then map[] else After(store, Filled(store, qs[..|qs| - 1]), qs[|qs| - 1])
  }

  /** The text a query is answered from. */
  function Found(store: Query -> string, cache: map<string, string>, q: Query): string {
    After(store, cache, q)[CacheKey(q)]
  }

  function Storing(binary: seq<string> -> Observation): Query -> string {
    q => Stored(binary, q)
  }

  function Queries(cs: seq<Capability>): (r: seq<Query>)
    ensures |r| == |cs|
  {
    seq(|cs|, i requires 0 <= i < |cs| => QueryOf(cs[i]))
  }

  /** The answers to a sequence of questions put to a fresh probe. */
  function AnswersFrom(store: Query -> string, cs: seq<Capability>): (r: seq<Answer>)
    ensures |r| == |cs|
  {
    if cs == [] then []
    else
      var most, last := cs[..|cs| - 1], cs[|cs| - 1];
      AnswersFrom(store, most) + [Reading(last, Found(store, Filled(store, Queries(most)), QueryOf(last)))]
  }

  function CachedAll(binary: seq<string> -> Observation, cs: seq<Capability>): (r: seq<Answer>)
    ensures |r| == |cs|
  {
    AnswersFrom(Storing(binary), cs)
  }

  ghost predicate DistinctKeys(qs: seq<Query>) {
    forall i, j :: 0 <= i < j < |qs| ==> CacheKey(qs[i]) != CacheKey(qs[j])
  }

  /** No other query before this one went by its key. */
  predicate OnlyKey(before: seq<Query>, q: Query) {
    forall p :: p in before && CacheKey(p) == CacheKey(q) ==> p == q
  }

  class CapabilityProbe {
    const binary: seq<string> -> Observation
    var cache: map<string, string>
    /** The queries that reached the binary, in order. */
    ghost var asked: seq<Query>

    ghost predicate Valid()
      reads this
    {
      DistinctKeys(asked) && Represents(Storing(binary), cache, asked)
    }

    constructor (binary: seq<string> -> Observation)
      ensures Valid() && asked == [] && this.binary == binary
    {
      this.binary := binary;
      cache := map[];
      asked := [];
    }

    /** The cached half of supported and of probed. */
    method Fetch(q: Query) returns (stored: string)
      requires Valid()
      modifies this
      ensures Valid() && cache == After(Storing(binary), old(cache), q)
              && stored == Found(Storing(binary), old(cache), q)
      ensures asked == if CacheKey(q) in old(cache) then old(asked) else old(asked) + [q]
    {
      var key := CacheKey(q);
      if key in cache {
        return cache[key];
      }
      stored := Stored(binary, q);
      RepresentsNew(Storing(binary), cache, asked, q);
      cache := cache[key := stored];
      asked := asked + [q];
    }

    /** supported and probed: nothing is asked of a step without a requirement. */
    method Supports(c: Option<Capability>) returns (answer: Answer)
      requires Valid()
      modifies this
      ensures Valid()
      ensures c.None? ==> answer == Supported && asked == old(asked) && cache == old(cache)
      ensures c.Some? ==> answer == Reading(c.value, Found(Storing(binary), old(cache), QueryOf(c.value)))
      ensures c.Some? ==> cache == After(Storing(binary), old(cache), QueryOf(c.value))
      ensures c.Some? ==>
                asked == if CacheKey(QueryOf(c.value)) in old(cache) then old(asked)
                         else old(asked) + [QueryOf(c.value)]
      ensures c.Some? && OnlyKey(old(asked), QueryOf(c.value)) ==> answer == Uncached(binary, c.value)
    {
      if c.None? { return Supported; }
      var q := QueryOf(c.value);
      var stored := Fetch(q);
      answer := Reading(c.value, stored);
      SentinelIsUnique(binary, c.value);
    }

    /** Any sequence of questions to a fresh probe: the answers are those of the cache as a value,
        and no key reaches the binary twice. */
    method SupportsAll(cs: seq<Capability>) returns (answers: seq<Answer>)
      requires Valid() && cache == map[]
      modifies this
      ensures Valid() && DistinctKeys(asked) && cache == Filled(Storing(binary), Queries(cs))
      ensures answers == CachedAll(binary, cs)
    {
      answers := [];
      var i := 0;
      while i < |cs|
        invariant 0 <= i <= |cs| && Valid() && cache == Filled(Storing(binary), Queries(cs[..i]))
        invariant answers == CachedAll(binary, cs[..i])
      {
        AnswersStep(Storing(binary), cs, i);
        var answer := Supports(Some(cs[i]));
        answers := answers + [answer];
        i := i + 1;
      }
      assert cs[..i] == cs;
    }
  }

  // ---------------------------------------------------------------- when keys tell queries apart

  /** Tokens hold no space, and a list of one empty token is not passed off as an empty one. */
  predicate SpelledTokens(ts: seq<string>) {
    ts != [""] && forall i :: 0 <= i < |ts| ==> ' ' !in ts[i]
  }

  predicate Spelled(q: Query) {
    match q
    case HelpOf(verb) => SpelledTokens(verb) && (verb != [] && verb[0] != "" ==> verb[0][0] != MARK)
    case ShapeOf(argv) => SpelledTokens(argv) && argv != []
  }

  lemma JoinsApart(a: seq<string>, b: seq<string>)
    requires SpelledTokens(a) && SpelledTokens(b) && Join(a, " ") == Join(b, " ")
    ensures a == b
  {
    if a != [] && b != [] {
      SplitJoin(a, ' ');
      SplitJoin(b, ' ');
    } else {
      if a != [] { EmptyJoin(a); }
      if b != [] { EmptyJoin(b); }
    }
  }

  lemma EmptyJoin(a: seq<string>)
    requires a != [] && a != [""]
    ensures Join(a, " ") != ""
  {
    if |a| == 1 { assert a == [a[0]]; }
  }

  lemma SpelledKeysDiffer(p: Query, q: Query)
    requires Spelled(p) && Spelled(q) && CacheKey(p) == CacheKey(q)
    ensures p == q
  {
    match (p, q) {
      case (HelpOf(v), HelpOf(w)) => JoinsApart(v, w);
      case (ShapeOf(v), ShapeOf(w)) =>
        assert ([MARK] + Join(v, " "))[1..] == Join(v, " ") && ([MARK] + Join(w, " "))[1..] == Join(w, " ");
        JoinsApart(v, w);
      case (HelpOf(v), ShapeOf(w)) => VerbKeyUnmarked(v);
      case (ShapeOf(v), HelpOf(w)) => VerbKeyUnmarked(w);
    }
  }

  lemma VerbKeyUnmarked(verb: seq<string>)
    requires verb != [] && verb[0] != "" ==> verb[0][0] != MARK
    ensures Join(verb, " ") != "" ==> Join(verb, " ")[0] != MARK
  {
  }

  function Binary(bad: seq<string>): seq<string> -> Observation {
    args => Observation(args, 0, "", if args == bad then "unknown flag" else "", true, true, false, None, false)
  }

  // ---------------------------------------------------------------- when the cache is transparent

  /** No two different queries of the sequence share a key. */
  predicate NoCollision(qs: seq<Query>) {
    forall i, j :: 0 <= i < j < |qs| && CacheKey(qs[i]) == CacheKey(qs[j]) ==> qs[i] == qs[j]
  }

  /** The cache holds, for every query made, what that query stores, and nothing else. */
  ghost predicate Represents(store: Query -> string, cache: map<string, string>, qs: seq<Query>) {
    && (forall q :: q in qs ==> CacheKey(q) in cache && cache[CacheKey(q)] == store(q))
    && (forall key :: key in cache ==> exists q :: q in qs && CacheKey(q) == key)
  }

  lemma RepresentsNew(store: Query -> string, cache: map<string, string>, qs: seq<Query>, q: Query)
    requires Represents(store, cache, qs) && DistinctKeys(qs) && CacheKey(q) !in cache
    ensures Represents(store, cache[CacheKey(q) := store(q)], qs + [q]) && DistinctKeys(qs + [q])
  {
    RepresentsNext(store, cache, qs, q);
    forall i | 0 <= i < |qs|
      ensures CacheKey(qs[i]) != CacheKey(q)
    {
      assert qs[i] in qs;
    }
  }

  lemma RepresentsNext(store: Query -> string, cache: map<string, string>, qs: seq<Query>, q: Query)
    requires Represents(store, cache, qs) && forall p :: p in qs && CacheKey(p) == CacheKey(q) ==> p == q
    ensures Represents(store, After(store, cache, q), qs + [q])
  {
    var next := After(store, cache, q);
    forall p | p in qs + [q]
      ensures CacheKey(p) in next && next[CacheKey(p)] == store(p)
    {
      if CacheKey(q) in cache {
        var p' :| p' in qs && CacheKey(p') == CacheKey(q);
      }
    }
    forall key | key in next
      ensures exists p :: p in qs + [q] && CacheKey(p) == key
    {
      if key in cache {
        var p :| p in qs && CacheKey(p) == key;
        assert p in qs + [q];
      } else {
        assert q in qs + [q] && CacheKey(q) == key;
      }
    }
  }

  lemma {:induction false} CacheHolds(store: Query -> string, qs: seq<Query>)
    requires NoCollision(qs)
    ensures Represents(store, Filled(store, qs), qs)
  {
    if qs != [] {
      var n := |qs| - 1;
      CacheHolds(store, qs[..n]);
      OnlyLast(qs);
      assert qs == qs[..n] + [qs[n]];
      RepresentsNext(store, Filled(store, qs[..n]), qs[..n], qs[n]);
    }
  }

  lemma OnlyLast(qs: seq<Query>)
    requires qs != [] && NoCollision(qs)
    ensures var n := |qs| - 1; forall p :: p in qs[..n] && CacheKey(p) == CacheKey(qs[n]) ==> p == qs[n]
  {
    var n := |qs| - 1;
    forall p | p in qs[..n] && CacheKey(p) == CacheKey(qs[n])
      ensures p == qs[n]
    {
      var i :| 0 <= i < n && qs[i] == p;
    }
  }

  /** A query finds its own text when no different query before it had its key. */
  lemma FoundRight(store: Query -> string, qs: seq<Query>, n: nat)
    requires n < |qs| && NoCollision(qs)
    ensures Found(store, Filled(store, qs[..n]), qs[n]) == store(qs[n])
  {
    CacheHolds(store, qs[..n]);
    assert qs[..n + 1][..n] == qs[..n];
    OnlyLast(qs[..n + 1]);
  }

  /** A query finds the text of a different one that took its key first. */
  lemma FoundWrong(store: Query -> string, qs: seq<Query>, i: nat, n: nat)
    requires i < n < |qs| && NoCollision(qs[..n]) && CacheKey(qs[i]) == CacheKey(qs[n])
    ensures Found(store, Filled(store, qs[..n]), qs[n]) == store(qs[i])
  {
    CacheHolds(store, qs[..n]);
    assert qs[..n][i] == qs[i];
  }

  /** The first query whose key a different one took before it. */
  lemma {:induction false} FirstCollision(qs: seq<Query>) returns (i: nat, j: nat)
    requires !NoCollision(qs)
    ensures i < j < |qs| && NoCollision(qs[..j]) && CacheKey(qs[i]) == CacheKey(qs[j]) && qs[i] != qs[j]
  {
    var n := |qs| - 1;
    assert forall k :: 0 <= k < n ==> qs[..n][k] == qs[k];
    if NoCollision(qs[..n]) {
      i, j :| 0 <= i < j < |qs| && CacheKey(qs[i]) == CacheKey(qs[j]) && qs[i] != qs[j];
    } else {
      i, j := FirstCollision(qs[..n]);
      assert qs[..n][..j] == qs[..j];
    }
  }

  lemma AnswersStep(store: Query -> string, cs: seq<Capability>, i: nat)
    requires i < |cs|
    ensures var cache := Filled(store, Queries(cs[..i]));
      && AnswersFrom(store, cs[..i + 1]) == AnswersFrom(store, cs[..i])
         + [Reading(cs[i], Found(store, cache, QueryOf(cs[i])))]
      && Filled(store, Queries(cs[..i + 1])) == After(store, cache, QueryOf(cs[i]))
  {
    assert cs[..i + 1][..i] == cs[..i];
    assert Queries(cs[..i + 1])[..i] == Queries(cs[..i]);
  }

  /** What the cache answers to the i-th question. */
  function AnswerTo(store: Query -> string, cs: seq<Capability>, i: nat): Answer
    requires i < |cs|
  {
    Reading(cs[i], Found(store, Filled(store, Queries(cs)[..i]), Queries(cs)[i]))
  }

  lemma LastAnswer(store: Query -> string, cs: seq<Capability>)
    requires cs != []
    ensures AnswersFrom(store, cs) == AnswersFrom(store, cs[..|cs| - 1]) + [AnswerTo(store, cs, |cs| - 1)]
  {
    QueriesPrefix(cs, |cs| - 1);
  }

  lemma AnswerToPrefix(store: Query -> string, cs: seq<Capability>, n: nat, i: nat)
    requires i < n <= |cs|
    ensures AnswerTo(store, cs[..n], i) == AnswerTo(store, cs, i)
  {
    QueriesPrefix(cs, n);
    Sliced(Queries(cs), n, i);
  }

  lemma QueriesPrefix(cs: seq<Capability>, n: nat)
    requires n <= |cs|
    ensures Queries(cs)[..n] == Queries(cs[..n])
  {
  }

  lemma {:induction false} AnswerAt(store: Query -> string, cs: seq<Capability>, i: nat)
    requires i < |cs|
    ensures AnswersFrom(store, cs)[i] == AnswerTo(store, cs, i)
    decreases |cs|
  {
    var n := |cs| - 1;
    LastAnswer(store, cs);
    AppendedAt(AnswersFrom(store, cs[..n]), AnswerTo(store, cs, n), i);
    if i < n {
      AnswerAt(store, cs[..n], i);
      AnswerToPrefix(store, cs, n, i);
    }
  }

  lemma AppendedAt(most: seq<Answer>, last: Answer, i: nat)
    requires i <= |most|
    ensures (most + [last])[i] == if i < |most| then most[i] else last
  {
  }

  lemma Sliced(qs: seq<Query>, n: nat, i: nat)
    requires i < n <= |qs|
    ensures qs[..n][..i] == qs[..i] && qs[..n][i] == qs[i]
  {
  }

  lemma {:induction false} UncachedAt(binary: seq<string> -> Observation, cs: seq<Capability>, i: nat)
    requires i < |cs|
    ensures UncachedAll(binary, cs)[i] == Uncached(binary, cs[i])
    decreases |cs|
  {
    if i < |cs| - 1 { UncachedAt(binary, cs[..|cs| - 1], i); }
  }

  lemma AnswerRight(binary: seq<string> -> Observation, cs: seq<Capability>, i: nat)
    requires i < |cs| && NoCollision(Queries(cs))
    ensures CachedAll(binary, cs)[i] == UncachedAll(binary, cs)[i]
  {
    AnswerAt(Storing(binary), cs, i);
    UncachedAt(binary, cs, i);
    FoundRight(Storing(binary), Queries(cs), i);
    SentinelIsUnique(binary, cs[i]);
  }

  /** A collision shows: against the binary that rejects the first query and no other, the second
      question is answered for the first. */
  lemma AnswerWrong(cs: seq<Capability>, i: nat, j: nat)
    requires i < j < |cs| && NoCollision(Queries(cs)[..j])
    requires CacheKey(QueryOf(cs[i])) == CacheKey(QueryOf(cs[j])) && QueryOf(cs[i]) != QueryOf(cs[j])
    ensures var binary := Binary(Argv(QueryOf(cs[i]))); CachedAll(binary, cs)[j] != UncachedAll(binary, cs)[j]
  {
    var p, q := QueryOf(cs[i]), QueryOf(cs[j]);
    var binary := Binary(Argv(p));
    ArgvsDiffer(p, q);
    AnswerAt(Storing(binary), cs, j);
    UncachedAt(binary, cs, j);
    FoundWrong(Storing(binary), Queries(cs), i, j);
    RejectedStores(p, q);
    assert Storing(binary)(p) == SENTINEL;
    AcceptedAnswers(binary, cs[j]);
  }

  lemma RejectedStores(p: Query, q: Query)
    requires Argv(p) != Argv(q)
    ensures Stored(Binary(Argv(p)), p) == SENTINEL && !IsUnsupported(Binary(Argv(p))(Argv(q)))
  {
    BinaryRejects(Argv(p), Argv(q));
  }

  lemma AcceptedAnswers(binary: seq<string> -> Observation, c: Capability)
    requires !IsUnsupported(binary(Argv(QueryOf(c))))
    ensures Uncached(binary, c) != Reading(c, SENTINEL)
  {
  }

  /** The cached answers to a sequence are the uncached ones, for every binary, exactly when no two
      different queries of the sequence share a key. */
  lemma TransparentIff(cs: seq<Capability>)
    ensures (forall binary :: CachedAll(binary, cs) == UncachedAll(binary, cs)) <==> NoCollision(Queries(cs))
  {
    if NoCollision(Queries(cs)) {
      forall binary
        ensures CachedAll(binary, cs) == UncachedAll(binary, cs)
      {
        AllRight(binary, cs);
      }
    } else {
      var i, j := FirstCollision(Queries(cs));
      AnswerWrong(cs, i, j);
    }
  }

  lemma AllRight(binary: seq<string> -> Observation, cs: seq<Capability>)
    requires NoCollision(Queries(cs))
    ensures CachedAll(binary, cs) == UncachedAll(binary, cs)
  {
    forall i | 0 <= i < |cs|
      ensures CachedAll(binary, cs)[i] == UncachedAll(binary, cs)[i]
    {
      AnswerRight(binary, cs, i);
    }
  }

  /** Spelled tokens never collide. */
  lemma SpelledTransparent(qs: seq<Query>)
    requires forall q :: q in qs ==> Spelled(q)
    ensures NoCollision(qs)
  {
    forall i, j | 0 <= i < j < |qs| && CacheKey(qs[i]) == CacheKey(qs[j])
      ensures qs[i] == qs[j]
    {
      SpelledKeysDiffer(qs[i], qs[j]);
    }
  }

  lemma {:induction false} JoinLength(ts: seq<string>, t: string)
    ensures |Join(ts + [t], " ")| == if ts == [] then |t| else |Join(ts, " ")| + 1 + |t|
  {
    if ts != [] {
      JoinLength(ts[1..], t);
      assert (ts + [t])[1..] == ts[1..] + [t];
    }
  }

  lemma ArgvsDiffer(p: Query, q: Query)
    requires CacheKey(p) == CacheKey(q) && p != q
    ensures Argv(p) != Argv(q)
  {
    match (p, q) {
      case (HelpOf(v), HelpOf(w)) =>
        assert (v + ["--help"])[..|v|] == v && (w + ["--help"])[..|w|] == w;
      case (ShapeOf(v), ShapeOf(w)) =>
      case (HelpOf(v), ShapeOf(w)) => JoinLength(v, "--help");
      case (ShapeOf(v), HelpOf(w)) => JoinLength(w, "--help");
    }
  }

  lemma BinaryRejects(bad: seq<string>, good: seq<string>)
    requires bad != good
    ensures IsUnsupported(Binary(bad)(bad)) && !IsUnsupported(Binary(bad)(good))
  {
    var o, fine := Binary(bad)(bad), Binary(bad)(good);
    assert Emitted(o) == "\nunknown flag" && Emitted(fine) == "\n";
    Rejected();
    SilenceIsNotRejection();
  }

  lemma Rejected()
    ensures RejectsShape(Fold("\nunknown flag"))
  {
    assert Fold("\nunknown flag") == "\nunknown flag";
    assert OccursAt("\nunknown flag", "unknown flag", 1);
  }

  /** Two pairs of queries that share a key: space-free tokens do not suffice. */
  lemma KeysCollide()
    ensures CacheKey(HelpOf([])) == CacheKey(HelpOf([""])) && Argv(HelpOf([])) != Argv(HelpOf([""]))
    ensures CacheKey(HelpOf([[MARK, 'x']])) == CacheKey(ShapeOf(["x"]))
            && Argv(HelpOf([[MARK, 'x']])) != Argv(ShapeOf(["x"]))
  {
    assert Argv(HelpOf([])) == ["--help"] && |Argv(HelpOf([""]))| == 2;
    assert |Argv(HelpOf([[MARK, 'x']]))| == 2 && |Argv(ShapeOf(["x"]))| == 1;
    assert [MARK] + "x" == [MARK, 'x'];
  }
}
