/** Retention as a whole: what one prune may remove, that a second prune removes nothing, and
    that a backup left pinned is never lost over any run. */
module Pruning {
  import opened Paths
  import opened FileSystem
  import opened Backup
  import opened Retention

  /** Every manifest names its own directory, and no backup directory lies inside another. */
  ghost predicate OwnDirs(inv: seq<Slot>) {
    && (forall i :: 0 <= i < |inv| ==>
          inv[i].manifest.rootDir != "" && Components(inv[i].manifest.rootDir) == inv[i].dir)
    && (forall i, j :: 0 <= i < |inv| && 0 <= j < |inv| && i != j ==> !Within(inv[i].dir, inv[j].dir))
  }

  /** A listing of the inventory in the order Prune sorts it, ties in any order. */
  ghost predicate SortedListing(inv: seq<Slot>, sorted: seq<Manifest>) {
    multiset(sorted) == multiset(Manifests(inv)) && NewestFirst(sorted)
  }

  lemma {:induction false} ManifestOrigin(inv: seq<Slot>, m: Manifest) returns (i: nat)
    requires m in Manifests(inv)
    ensures i < |inv| && inv[i].manifest == m
  {
    if inv[0].manifest == m {
      i := 0;
    } else {
      i := ManifestOrigin(inv[1..], m);
      i := i + 1;
    }
  }

  // ---------------------------------------------------------------- unpinned manifests, counted

  lemma {:induction false} UnpinnedCount(ms: seq<Manifest>, m: Manifest)
    ensures multiset(Unpinned(ms))[m] == if m.pinned then 0 else multiset(ms)[m]
  {
    if ms != [] {
      UnpinnedCount(ms[1..], m);
      CountHead(ms[0], ms[1..], m);
      CountHead(ms[0], Unpinned(ms[1..]), m);
      assert ms == [ms[0]] + ms[1..];
      assert [] + Unpinned(ms[1..]) == Unpinned(ms[1..]);
    }
  }

  lemma CountHead(x: Manifest, ms: seq<Manifest>, m: Manifest)
    ensures multiset([x] + ms)[m] == multiset(ms)[m] + if x == m then 1 else 0
  {
  }

  lemma UnpinnedOf(ms: seq<Manifest>, m: Manifest)
    ensures m in Unpinned(ms) <==> m in ms && !m.pinned
  {
    UnpinnedCount(ms, m);
    assert m in multiset(Unpinned(ms)) <==> m in Unpinned(ms);
    assert m in multiset(ms) <==> m in ms;
  }

  lemma {:induction false} UnpinnedOrdered(ms: seq<Manifest>)
    requires NewestFirst(ms)
    ensures NewestFirst(Unpinned(ms))
  {
    if ms != [] {
      UnpinnedOrdered(ms[1..]);
      forall j | 0 <= j < |Unpinned(ms[1..])|
        ensures ms[0].createdAt >= Unpinned(ms[1..])[j].createdAt
      {
        UnpinnedOf(ms[1..], Unpinned(ms[1..])[j]);
      }
    }
  }

  // ---------------------------------------------------------------- one prune

  lemma SlotSurvives(env: Env, stuck: set<string>, inv: seq<Slot>, sorted: seq<Manifest>, count: int, s: Slot)
    requires OwnDirs(inv) && multiset(sorted) == multiset(Manifests(inv)) && s in inv
    ensures s in DeleteAll(env, stuck, inv, Excess(sorted, count))
            <==> !(s.manifest in Excess(sorted, count) && Deletable(env, stuck, s.manifest))
  {
    var es := Excess(sorted, count);
    SurvivesIff(env, stuck, inv, es, s);
    var i :| 0 <= i < |inv| && inv[i] == s;
    forall m | m in es && Deletable(env, stuck, m) && Within(Components(m.rootDir), s.dir)
      ensures m == s.manifest
    {
      ExcessUnpinned(sorted, count, m);
      assert m in multiset(Manifests(inv));
      var j := ManifestOrigin(inv, m);
      assert inv[j].dir == Components(m.rootDir);
    }
    assert Components(s.manifest.rootDir) == s.dir && Within(s.dir, s.dir);
  }

  lemma ExcessUnpinned(sorted: seq<Manifest>, count: int, m: Manifest)
    requires m in Excess(sorted, count)
    ensures m in sorted && !m.pinned
  {
    assert m in Unpinned(sorted);
    UnpinnedOf(sorted, m);
  }

  /** However ties are sorted: a prune removes exactly the excess it could delete, so never a
      pinned backup, and nothing it removes is newer than any unpinned backup it meant to keep. */
  lemma PruneSafe(env: Env, stuck: set<string>, inv: seq<Slot>, sorted: seq<Manifest>, count: int)
    requires OwnDirs(inv) && SortedListing(inv, sorted)
    ensures var kept := DeleteAll(env, stuck, inv, Excess(sorted, count));
      && (forall s :: s in kept ==> s in inv)
      && (forall s :: s in inv && s.manifest.pinned ==> s in kept)
      && (forall s :: s in inv ==>
            (s in kept <==> !(s.manifest in Excess(sorted, count) && Deletable(env, stuck, s.manifest))))
      && (forall s, y :: s in inv && s !in kept && y in Unpinned(sorted) && y !in Excess(sorted, count)
            ==> s.manifest.createdAt <= y.createdAt)
  {
    var kept := DeleteAll(env, stuck, inv, Excess(sorted, count));
    forall s | s in kept
      ensures s in inv
    {
      SurvivesIff(env, stuck, inv, Excess(sorted, count), s);
    }
    forall s | s in inv
      ensures s in kept <==> !(s.manifest in Excess(sorted, count) && Deletable(env, stuck, s.manifest))
      ensures s.manifest.pinned ==> s in kept
    {
      SlotSurvives(env, stuck, inv, sorted, count, s);
      if s.manifest in Excess(sorted, count) { ExcessUnpinned(sorted, count, s.manifest); }
    }
    UnpinnedOrdered(sorted);
    TailHolds(Unpinned(sorted), count);
    forall x, y | x in Excess(sorted, count) && y in Unpinned(sorted) && y !in Excess(sorted, count)
      ensures x.createdAt <= y.createdAt
    {
      var u := Unpinned(sorted);
      var i :| 0 <= i < |u| && u[i] == y;
      var j :| 0 <= j < |u[count..]| && u[count..][j] == x;
      assert i < count;
    }
  }

  lemma TailHolds(u: seq<Manifest>, count: int)
    ensures 0 <= count ==> forall i :: count <= i < |u| ==> u[i] in u[count..]
  {
    if 0 <= count {
      forall i | count <= i < |u|
        ensures u[i] in u[count..]
      {
        assert u[count..][i - count] == u[i];
      }
    }
  }

  /** Deleting one manifest of the inventory takes away that one. */
  lemma {:induction false} OutsideOne(inv: seq<Slot>, p: Path, k: nat)
    requires k < |inv| && Within(p, inv[k].dir)
    requires forall i :: 0 <= i < |inv| && i != k ==> !Within(p, inv[i].dir)
    ensures Outside(inv, p) == inv[..k] + inv[k + 1..]
  {
    var rest := inv[1..];
    if k == 0 {
      OutsideNone(rest, p);
    } else {
      assert forall i :: 0 <= i < |rest| ==> rest[i] == inv[i + 1];
      OutsideOne(rest, p, k - 1);
      SkipOne(inv, k);
    }
  }

  lemma SkipOne(inv: seq<Slot>, k: nat)
    requires 0 < k < |inv|
    ensures [inv[0]] + (inv[1..][..k - 1] + inv[1..][k..]) == inv[..k] + inv[k + 1..]
  {
  }

  lemma {:induction false} OutsideNone(inv: seq<Slot>, p: Path)
    requires forall i :: 0 <= i < |inv| ==> !Within(p, inv[i].dir)
    ensures Outside(inv, p) == inv
  {
    if inv != [] { OutsideNone(inv[1..], p); }
  }

  lemma {:induction false} ManifestsConcat(a: seq<Slot>, b: seq<Slot>)
    ensures Manifests(a + b) == Manifests(a) + Manifests(b)
  {
    if a == [] {
      assert a + b == b;
    } else {
      ManifestsConcat(a[1..], b);
      assert (a + b)[1..] == a[1..] + b;
    }
  }

  lemma {:induction false} ManifestsWithout(inv: seq<Slot>, k: nat)
    requires k < |inv|
    ensures multiset(Manifests(inv[..k] + inv[k + 1..])) == multiset(Manifests(inv)) - multiset{inv[k].manifest}
  {
    var a, b := inv[..k], inv[k + 1..];
    ManifestsWith(a, inv[k], b);
    ManifestsConcat(a, b);
    assert inv == a + ([inv[k]] + b);
    LeavesOut(Manifests(a), inv[k].manifest, Manifests(b));
  }

  lemma {:induction false} ManifestsWith(a: seq<Slot>, s: Slot, b: seq<Slot>)
    ensures Manifests(a + ([s] + b)) == Manifests(a) + ([s.manifest] + Manifests(b))
  {
    ManifestsOnto(s, b);
    ManifestsConcat(a, [s] + b);
  }

  lemma ManifestsOnto(s: Slot, b: seq<Slot>)
    ensures Manifests([s] + b) == [s.manifest] + Manifests(b)
  {
    assert ([s] + b)[1..] == b;
  }

  lemma LeavesOut(a: seq<Manifest>, x: Manifest, b: seq<Manifest>)
    ensures multiset(a + b) == multiset(a + ([x] + b)) - multiset{x}
  {
  }

  lemma DeleteOne(env: Env, stuck: set<string>, inv: seq<Slot>, m: Manifest)
    requires OwnDirs(inv) && m in Manifests(inv) && Deletable(env, stuck, m)
    ensures OwnDirs(Delete(env, stuck, inv, m))
    ensures multiset(Manifests(Delete(env, stuck, inv, m))) == multiset(Manifests(inv)) - multiset{m}
  {
    var k := ManifestOrigin(inv, m);
    assert Within(inv[k].dir, inv[k].dir);
    OutsideOne(inv, inv[k].dir, k);
    ManifestsWithout(inv, k);
    OutsideOwn(inv, inv[k].dir);
  }

  lemma TakeOne(ms: seq<Manifest>, all: seq<Manifest>)
    requires ms != [] && multiset(ms) <= multiset(all)
    ensures ms[0] in all && multiset(ms) == multiset{ms[0]} + multiset(ms[1..])
    ensures multiset(ms[1..]) <= multiset(all) - multiset{ms[0]}
  {
    assert ms == [ms[0]] + ms[1..];
    assert ms[0] in multiset(all);
  }

  lemma {:induction false} DeleteMany(env: Env, stuck: set<string>, inv: seq<Slot>, ms: seq<Manifest>)
    requires OwnDirs(inv) && multiset(ms) <= multiset(Manifests(inv))
    requires forall m :: m in ms ==> Deletable(env, stuck, m)
    ensures OwnDirs(DeleteAll(env, stuck, inv, ms))
    ensures multiset(Manifests(DeleteAll(env, stuck, inv, ms))) == multiset(Manifests(inv)) - multiset(ms)
    decreases |ms|
  {
    if ms != [] {
      TakeOne(ms, Manifests(inv));
      DeleteOne(env, stuck, inv, ms[0]);
      DeleteMany(env, stuck, Delete(env, stuck, inv, ms[0]), ms[1..]);
    }
  }

  /** What is left unpinned after the excess is gone, however the rest is sorted. */
  lemma UnpinnedLeft(sorted: seq<Manifest>, count: nat, rest: seq<Manifest>)
    requires multiset(rest) == multiset(sorted) - multiset(Excess(sorted, count))
    requires count > 0
    ensures |Unpinned(rest)| == if |Unpinned(sorted)| <= count then |Unpinned(sorted)| else count
  {
    var u, e := Unpinned(sorted), Excess(sorted, count);
    var head := if |u| <= count then u else u[..count];
    assert u == head + e;
    forall m
      ensures multiset(Unpinned(rest))[m] == multiset(head)[m]
    {
      UnpinnedCount(rest, m);
      UnpinnedCount(sorted, m);
      CountsAdd(head, e, u, m);
      CountsSubtract(multiset(rest), multiset(sorted), multiset(e), m);
    }
    SameLength(Unpinned(rest), head);
  }

  lemma CountsAdd(a: seq<Manifest>, b: seq<Manifest>, c: seq<Manifest>, m: Manifest)
    requires c == a + b
    ensures multiset(c)[m] == multiset(a)[m] + multiset(b)[m]
  {
  }

  lemma CountsSubtract(a: multiset<Manifest>, b: multiset<Manifest>, c: multiset<Manifest>, m: Manifest)
    requires a == b - c
    ensures a[m] == if b[m] >= c[m] then b[m] - c[m] else 0
  {
  }

  lemma SameLength(a: seq<Manifest>, b: seq<Manifest>)
    requires forall m :: multiset(a)[m] == multiset(b)[m]
    ensures |a| == |b|
  {
    assert multiset(a) == multiset(b);
    assert |multiset(a)| == |a| && |multiset(b)| == |b|;
  }

  /** When every deletion succeeds, a prune with a positive count leaves at most that many unpinned
      backups, and a second prune, however it sorts, selects nothing. */
  lemma PruneSettles(env: Env, stuck: set<string>, inv: seq<Slot>, sorted: seq<Manifest>, count: int,
                     again: seq<Manifest>)
    requires OwnDirs(inv) && SortedListing(inv, sorted) && count > 0
    requires forall m :: m in Excess(sorted, count) ==> Deletable(env, stuck, m)
    requires SortedListing(DeleteAll(env, stuck, inv, Excess(sorted, count)), again)
    ensures OwnDirs(DeleteAll(env, stuck, inv, Excess(sorted, count)))
    ensures |Unpinned(again)| == if |Unpinned(sorted)| <= count then |Unpinned(sorted)| else count
    ensures Excess(again, count) == []
  {
    var e := Excess(sorted, count);
    ExcessWithin(sorted, count);
    assert multiset(e) <= multiset(Manifests(inv));
    DeleteMany(env, stuck, inv, e);
    UnpinnedLeft(sorted, count, again);
  }

  /** What is selected is taken from what was listed. */
  lemma ExcessWithin(sorted: seq<Manifest>, count: int)
    ensures multiset(Excess(sorted, count)) <= multiset(sorted)
  {
    var u, e := Unpinned(sorted), Excess(sorted, count);
    forall m
      ensures multiset(e)[m] <= multiset(sorted)[m]
    {
      UnpinnedCount(sorted, m);
      if e != [] {
        assert u == u[..count] + e;
        CountsAdd(u[..count], e, u, m);
      }
    }
  }

  /** Without the own-directory condition the promise fails: an old unpinned manifest that names
      a pinned backup's directory takes that backup with it. */
  lemma ForeignRootDirLosesPinned(env: Env, pinned: Slot, newer: Slot, older: Slot)
    requires pinned.manifest.pinned && !newer.manifest.pinned && !older.manifest.pinned
    requires older.manifest.createdAt < newer.manifest.createdAt < pinned.manifest.createdAt
    requires older.manifest.rootDir == pinned.manifest.rootDir && Components(pinned.manifest.rootDir) == pinned.dir
    requires Deletable(env, {}, older.manifest)
    ensures var inv, sorted := [pinned, newer, older], [pinned.manifest, newer.manifest, older.manifest];
      SortedListing(inv, sorted) && pinned !in DeleteAll(env, {}, inv, Excess(sorted, 1))
  {
    ThreeManifests(pinned, newer, older);
    OldestIsExcess(pinned.manifest, newer.manifest, older.manifest);
    OneDeletion(env, [pinned, newer, older], older.manifest, pinned);
  }

  lemma OldestIsExcess(p: Manifest, n: Manifest, o: Manifest)
    requires p.pinned && !n.pinned && !o.pinned && o.createdAt < n.createdAt < p.createdAt
    ensures Excess([p, n, o], 1) == [o] && NewestFirst([p, n, o])
  {
    ThreeUnpinned(p, n, o);
    assert [n, o][1..] == [o];
  }

  lemma OneDeletion(env: Env, inv: seq<Slot>, m: Manifest, s: Slot)
    requires Deletable(env, {}, m) && Components(m.rootDir) == s.dir
    ensures s !in DeleteAll(env, {}, inv, [m])
  {
    assert m in [m] && Within(s.dir, s.dir);
    SurvivesIff(env, {}, inv, [m], s);
  }

  lemma ThreeManifests(a: Slot, b: Slot, c: Slot)
    ensures Manifests([a, b, c]) == [a.manifest, b.manifest, c.manifest]
  {
    assert [a, b, c][1..] == [b, c] && [b, c][1..] == [c] && [c][1..] == [];
    assert Manifests([b, c]) == [b.manifest] + Manifests([c]);
  }

  lemma ThreeUnpinned(p: Manifest, n: Manifest, o: Manifest)
    requires p.pinned && !n.pinned && !o.pinned
    ensures Unpinned([p, n, o]) == [n, o]
  {
    assert [p, n, o][1..] == [n, o] && [n, o][1..] == [o] && [o][1..] == [];
    assert Unpinned([n, o]) == [n] + Unpinned([o]);
  }

  // ---------------------------------------------------------------- runs

  /** TogglePin is handed a manifest, which may be an old copy, and a prune has its own failing
      deletions. */
  datatype Op =
    | Take(slot: Slot)
    | TogglePin(manifest: Manifest)
    | Prune(stuck: set<string>, sorted: seq<Manifest>, count: int)

  /** TogglePin writes the manifest it was handed, pin flipped, into that manifest's directory. */
  function Toggle(inv: seq<Slot>, m: Manifest): (r: seq<Slot>)
    ensures |r| == |inv|
    ensures forall i :: 0 <= i < |inv| ==> r[i] == if inv[i].dir == Components(m.rootDir) then Flipped(m) else inv[i]
  {
    if inv == [] then []
    else [if inv[0].dir == Components(m.rootDir) then Flipped(m) else inv[0]] + Toggle(inv[1..], m)
  }

  function Flipped(m: Manifest): Slot {
    Slot(Components(m.rootDir), m.(pinned := !m.pinned))
  }

  predicate HasDir(inv: seq<Slot>, dir: Path) {
    exists i :: 0 <= i < |inv| && inv[i].dir == dir
  }

  /** One command on the inventory: a new backup in a directory of its own, a pin toggled, which
      makes the directory again if it is gone, or a prune with some order of ties and some
      deletions failing. */
  ghost predicate Next(env: Env, inv: seq<Slot>, op: Op, inv': seq<Slot>) {
    match op
    case Take(s) => inv' == inv + [s] && OwnDirs(inv')
    case TogglePin(m) =>
      if m.rootDir == "" then inv' == inv
      else if HasDir(inv, Components(m.rootDir)) then inv' == Toggle(inv, m)
      else inv' == inv + [Flipped(m)] && OwnDirs(inv')
    case Prune(stuck, sorted, count) =>
      SortedListing(inv, sorted) && inv' == DeleteAll(env, stuck, inv, Excess(sorted, count))
  }

  ghost predicate Run(env: Env, states: seq<seq<Slot>>, ops: seq<Op>) {
    |states| == |ops| + 1 && forall k :: 0 <= k < |ops| ==> Next(env, states[k], ops[k], states[k + 1])
  }

  /** The command does not write the manifest in this directory. */
  predicate Spares(op: Op, dir: Path) {
    op.TogglePin? && op.manifest.rootDir != "" ==> Components(op.manifest.rootDir) != dir
  }

  lemma {:induction false} DeleteAllOwn(env: Env, stuck: set<string>, inv: seq<Slot>, ms: seq<Manifest>)
    requires OwnDirs(inv)
    ensures OwnDirs(DeleteAll(env, stuck, inv, ms))
    decreases |ms|
  {
    if ms != [] {
      if Deletable(env, stuck, ms[0]) { OutsideOwn(inv, Components(ms[0].rootDir)); }
      DeleteAllOwn(env, stuck, Delete(env, stuck, inv, ms[0]), ms[1..]);
    }
  }

  lemma {:induction false} OutsideOwn(inv: seq<Slot>, p: Path)
    requires OwnDirs(inv)
    ensures OwnDirs(Outside(inv, p))
  {
    if inv != [] {
      OutsideOwn(inv[1..], p);
      if !Within(p, inv[0].dir) {
        forall s | s in Outside(inv[1..], p)
          ensures !Within(inv[0].dir, s.dir) && !Within(s.dir, inv[0].dir)
        {
          FirstApart(inv, s);
        }
        OwnOnto(inv[0], Outside(inv[1..], p));
      } else {
        assert [] + Outside(inv[1..], p) == Outside(inv[1..], p);
      }
    }
  }

  lemma FirstApart(inv: seq<Slot>, s: Slot)
    requires OwnDirs(inv) && inv != [] && s in inv[1..]
    ensures !Within(inv[0].dir, s.dir) && !Within(s.dir, inv[0].dir)
  {
    var k :| 0 <= k < |inv[1..]| && inv[1..][k] == s;
    assert inv[k + 1] == s;
  }

  lemma OwnOnto(s: Slot, rest: seq<Slot>)
    requires OwnDirs(rest) && s.manifest.rootDir != "" && Components(s.manifest.rootDir) == s.dir
    requires forall r :: r in rest ==> !Within(s.dir, r.dir) && !Within(r.dir, s.dir)
    ensures OwnDirs([s] + rest)
  {
  }

  lemma NextKeepsPinned(env: Env, inv: seq<Slot>, op: Op, next: seq<Slot>, s: Slot)
    requires Next(env, inv, op, next) && OwnDirs(inv)
    requires s in inv && s.manifest.pinned && Spares(op, s.dir)
    ensures OwnDirs(next) && s in next
  {
    match op
    case Take(_) =>
    case TogglePin(m) =>
      if m.rootDir != "" && HasDir(inv, Components(m.rootDir)) { ToggleKeeps(inv, m, s); }
    case Prune(stuck, sorted, count) =>
      PruneKeepsPinned(env, stuck, inv, sorted, count, s);
  }

  lemma ToggleKeeps(inv: seq<Slot>, m: Manifest, s: Slot)
    requires OwnDirs(inv) && s in inv && m.rootDir != "" && s.dir != Components(m.rootDir)
    ensures OwnDirs(Toggle(inv, m)) && s in Toggle(inv, m)
  {
    var next := Toggle(inv, m);
    var i :| 0 <= i < |inv| && inv[i] == s;
    assert next[i] == s;
    forall j | 0 <= j < |inv|
      ensures next[j].dir == inv[j].dir && next[j].manifest.rootDir != ""
              && Components(next[j].manifest.rootDir) == inv[j].dir
    {
    }
    SamePlaces(inv, next);
  }

  lemma SamePlaces(inv: seq<Slot>, next: seq<Slot>)
    requires OwnDirs(inv) && |next| == |inv|
    requires forall j :: 0 <= j < |inv| ==>
               next[j].dir == inv[j].dir && next[j].manifest.rootDir != ""
                 && Components(next[j].manifest.rootDir) == inv[j].dir
    ensures OwnDirs(next)
  {
  }

  lemma PruneKeepsPinned(env: Env, stuck: set<string>, inv: seq<Slot>, sorted: seq<Manifest>, count: int, s: Slot)
    requires OwnDirs(inv) && SortedListing(inv, sorted) && s in inv && s.manifest.pinned
    ensures var kept := DeleteAll(env, stuck, inv, Excess(sorted, count)); OwnDirs(kept) && s in kept
  {
    PruneSafe(env, stuck, inv, sorted, count);
    DeleteAllOwn(env, stuck, inv, Excess(sorted, count));
  }

  lemma NextOf(env: Env, states: seq<seq<Slot>>, ops: seq<Op>, i: nat)
    requires Run(env, states, ops) && i < |ops|
    ensures Next(env, states[i], ops[i], states[i + 1])
  {
  }

  ghost predicate Passes(states: seq<seq<Slot>>, good: seq<Slot> -> bool, i: nat)
    requires i + 1 < |states|
  {
    good(states[i]) ==> good(states[i + 1])
  }

  lemma {:induction false} GoodUpTo(states: seq<seq<Slot>>, good: seq<Slot> -> bool, k: nat)
    requires k < |states| && good(states[0])
    requires forall i: nat :: i + 1 < |states| ==> Passes(states, good, i)
    ensures good(states[k])
  {
    if k > 0 {
      GoodUpTo(states, good, k - 1);
      assert Passes(states, good, k - 1);
    }
  }

  lemma StepPasses(env: Env, states: seq<seq<Slot>>, ops: seq<Op>, s: Slot, good: seq<Slot> -> bool, i: nat)
    requires Run(env, states, ops) && i < |ops| && s.manifest.pinned && Spares(ops[i], s.dir)
    requires forall inv :: good(inv) <==> OwnDirs(inv) && s in inv
    ensures Passes(states, good, i)
  {
    NextOf(env, states, ops, i);
    if OwnDirs(states[i]) && s in states[i] {
      NextKeepsPinned(env, states[i], ops[i], states[i + 1], s);
    }
  }

  /** Over any run of new backups, pin toggles, with manifests fresh or stale, and prunes, each
      with its own failing deletions, every manifest keeps naming its own directory, and a backup
      that starts pinned and whose manifest no toggle writes is there at the end. */
  lemma PinnedNeverLost(env: Env, states: seq<seq<Slot>>, ops: seq<Op>, s: Slot)
    requires Run(env, states, ops) && OwnDirs(states[0])
    requires s in states[0] && s.manifest.pinned && forall op :: op in ops ==> Spares(op, s.dir)
    ensures OwnDirs(states[|ops|]) && s in states[|ops|]
  {
    var good := inv => OwnDirs(inv) && s in inv;
    forall i: nat | i < |ops|
      ensures Passes(states, good, i)
    {
      assert ops[i] in ops;
      StepPasses(env, states, ops, s, good, i);
    }
    GoodUpTo(states, good, |ops|);
  }

  // ---------------------------------------------------------------- the code

  lemma DeleteStep(env: Env, stuck: set<string>, inv: seq<Slot>, ms: seq<Manifest>, i: nat)
    requires i < |ms|
    ensures DeleteAll(env, stuck, inv, ms[i..]) == DeleteAll(env, stuck, Delete(env, stuck, inv, ms[i]), ms[i + 1..])
  {
    assert ms[i..][0] == ms[i] && ms[i..][1..] == ms[i + 1..];
  }

  lemma IdsStep(env: Env, stuck: set<string>, ms: seq<Manifest>, i: nat, sofar: seq<string>)
    requires i < |ms|
    ensures (if Deletable(env, stuck, ms[i]) then sofar + [ms[i].id] else sofar) + DeletedIds(env, stuck, ms[i + 1..])
            == sofar + DeletedIds(env, stuck, ms[i..])
  {
    assert ms[i..][0] == ms[i] && ms[i..][1..] == ms[i + 1..];
    var rest := DeletedIds(env, stuck, ms[i + 1..]);
    assert sofar + ([ms[i].id] + rest) == sofar + [ms[i].id] + rest && [] + rest == rest;
  }

  class Inventory {
    var slots: seq<Slot>

    constructor (slots: seq<Slot>)
      ensures this.slots == slots
    {
      this.slots := slots;
    }

    /** Prune: list, sort newest first with ties in whatever order, and delete the excess one by
        one; a deletion that fails is passed over. */
    method PruneBackups(env: Env, stuck: set<string>, count: int)
      returns (deleted: seq<string>, ghost sorted: seq<Manifest>)
      modifies this
      ensures SortedListing(old(slots), sorted)
      ensures slots == DeleteAll(env, stuck, old(slots), Excess(sorted, count))
      ensures deleted == DeletedIds(env, stuck, Excess(sorted, count))
    {
      var order := SortListing(slots);
      sorted := order;
      if count <= 0 { return [], sorted; }
      var unpinned := Unpinned(order);
      if |unpinned| <= count { return [], sorted; }
      deleted := DeleteEach(env, stuck, unpinned[count..]);
    }

    /** The deletion loop. */
    method DeleteEach(env: Env, stuck: set<string>, toDelete: seq<Manifest>) returns (deleted: seq<string>)
      modifies this
      ensures slots == DeleteAll(env, stuck, old(slots), toDelete)
      ensures deleted == DeletedIds(env, stuck, toDelete)
    {
      deleted := [];
      var i := 0;
      assert toDelete[0..] == toDelete;
      while i < |toDelete|
        invariant 0 <= i <= |toDelete|
        invariant DeleteAll(env, stuck, slots, toDelete[i..]) == DeleteAll(env, stuck, old(slots), toDelete)
        invariant deleted + DeletedIds(env, stuck, toDelete[i..]) == DeletedIds(env, stuck, toDelete)
      {
        DeleteStep(env, stuck, slots, toDelete, i);
        IdsStep(env, stuck, toDelete, i, deleted);
        if Deletable(env, stuck, toDelete[i]) {
          slots := Outside(slots, Components(toDelete[i].rootDir));
          deleted := deleted + [toDelete[i].id];
        }
        i := i + 1;
      }
      assert toDelete[i..] == [];
    }
  }

  /** sort.Slice on the listed manifests. */
  method SortListing(inv: seq<Slot>) returns (sorted: seq<Manifest>)
    ensures SortedListing(inv, sorted)
  {
    var ms := Manifests(inv);
    var a := new Manifest[|ms|](i requires 0 <= i < |ms| => ms[i]);
    assert a[..] == ms;
    SortNewestFirst(a);
    sorted := a[..];
  }
}
