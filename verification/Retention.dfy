/** The backup inventory: which backup counts as newest, and what pruning removes. */
module Retention {
  import opened Text
  import opened Paths
  import opened FileSystem
  import opened Backup

  /** A backup directory with a readable manifest. */
  datatype Slot = Slot(dir: Path, manifest: Manifest)

  function Manifests(inv: seq<Slot>): seq<Manifest> {
    if inv == [] then [] else [inv[0].manifest] + Manifests(inv[1..])
  }

  predicate NewestFirst(ms: seq<Manifest>) {
    forall i, j :: 0 <= i < j < |ms| ==> ms[i].createdAt >= ms[j].createdAt
  }

  // ---------------------------------------------------------------- the newest backup

  /** The position of the newest manifest, the first one among equals. */
  function FirstNewest(ms: seq<Manifest>): (i: nat)
    requires ms != []
    ensures i < |ms|
    ensures forall j :: 0 <= j < |ms| ==> ms[j].createdAt <= ms[i].createdAt
    ensures forall j :: 0 <= j < i ==> ms[j].createdAt < ms[i].createdAt
  {
    if |ms| == 1 then 0
    else
      var k := FirstNewest(ms[..|ms| - 1]);
      if ms[|ms| - 1].createdAt > ms[k].createdAt then |ms| - 1 else k
  }

  /** The running maximum of IsDuplicate. */
  method Latest(ms: seq<Manifest>) returns (latest: Manifest)
    requires ms != []
    ensures latest == ms[FirstNewest(ms)]
  {
    latest := ms[0];
    var i := 1;
    while i < |ms|
      invariant 1 <= i <= |ms|
      invariant latest == ms[FirstNewest(ms[..i])]
    {
      assert ms[..i + 1][..i] == ms[..i];
      if ms[i].createdAt > latest.createdAt {
        latest := ms[i];
      }
      i := i + 1;
    }
    assert ms[..i] == ms;
  }

  /** IsDuplicate on the listed manifests. */
  method IsDuplicate(ms: seq<Manifest>, checksum: string) returns (r: bool)
    ensures r <==> checksum != "" && ms != [] && ms[FirstNewest(ms)].checksum == checksum
  {
    if checksum == "" || ms == [] { return false; }
    var latest := Latest(ms);
    if latest.checksum == "" { return false; }
    r := latest.checksum == checksum;
  }

  // ---------------------------------------------------------------- the exchange sort

  /** One comparison of the exchange sort. */
  function Exchange(s: seq<Manifest>, i: nat, j: nat): (r: seq<Manifest>)
    requires i < j < |s|
    ensures |r| == |s|
  {
    if s[j].createdAt > s[i].createdAt then Swap(s, i, j) else s
  }

  function Swap(s: seq<Manifest>, i: nat, j: nat): (r: seq<Manifest>)
    requires i < j < |s|
    ensures |r| == |s|
  {
    seq(|s|, k requires 0 <= k < |s| => if k == i then s[j] else if k == j then s[i] else s[k])
  }

  /** The inner loop with j running from i + 1 up to the given bound. */
  function Pass(s: seq<Manifest>, i: nat, j: nat): (r: seq<Manifest>)
    requires i < j <= |s|
    ensures |r| == |s|
  {
    if j == i + 1 then s else Exchange(Pass(s, i, j - 1), i, j - 1)
  }

  /** The outer loop with i running from 0 up to the given bound. */
  function Passes(s: seq<Manifest>, i: nat): (r: seq<Manifest>)
    requires i <= |s|
    ensures |r| == |s|
  {
    if i == 0 then s else Pass(Passes(s, i - 1), i - 1, |s|)
  }

  lemma SwapPermutes(s: seq<Manifest>, i: nat, j: nat)
    requires i < j < |s|
    ensures multiset(Exchange(s, i, j)) == multiset(s)
  {
    assert Swap(s, i, j) == s[i := s[j]][j := s[i]];
  }

  lemma {:induction false} PassPermutes(s: seq<Manifest>, i: nat, j: nat)
    requires i < j <= |s|
    ensures multiset(Pass(s, i, j)) == multiset(s)
    decreases j
  {
    if j > i + 1 {
      var prev := Pass(s, i, j - 1);
      PassPermutes(s, i, j - 1);
      SwapPermutes(prev, i, j - 1);
      assert Pass(s, i, j) == Exchange(prev, i, j - 1);
    }
  }

  lemma {:induction false} PassesPermute(s: seq<Manifest>, i: nat)
    requires i <= |s|
    ensures multiset(Passes(s, i)) == multiset(s)
    decreases i
  {
    if i > 0 {
      var prev := Passes(s, i - 1);
      PassesPermute(s, i - 1);
      PassPermutes(prev, i - 1, |s|);
      assert Passes(s, i) == Pass(prev, i - 1, |s|);
    }
  }

  lemma ExchangeSelects(s: seq<Manifest>, i: nat, j: nat)
    requires i < j < |s|
    ensures var r := Exchange(s, i, j);
      && r[i] == (if s[j].createdAt > s[i].createdAt then s[j] else s[i])
      && r[j] == (if s[j].createdAt > s[i].createdAt then s[i] else s[j])
      && (forall k :: 0 <= k < |s| && k != i && k != j ==> r[k] == s[k])
  {
  }

  /** The newest of s[i..j], kept as a running maximum. */
  function Newest(s: seq<Manifest>, i: nat, j: nat): Manifest
    requires i < j <= |s|
  {
    if j == i + 1 then s[i]
    else
      var m := Newest(s, i, j - 1);
      if s[j - 1].createdAt > m.createdAt then s[j - 1] else m
  }

  lemma {:induction false} NewestIsFirst(s: seq<Manifest>, j: nat)
    requires 0 < j <= |s|
    ensures Newest(s, 0, j) == s[FirstNewest(s[..j])]
  {
    if j > 1 {
      NewestIsFirst(s, j - 1);
      assert s[..j][..j - 1] == s[..j - 1];
    }
  }

  lemma {:induction false} PassFrame(s: seq<Manifest>, i: nat, j: nat)
    requires i < j <= |s|
    ensures forall k :: 0 <= k < i || j <= k < |s| ==> Pass(s, i, j)[k] == s[k]
    decreases j
  {
    if j > i + 1 {
      PassFrame(s, i, j - 1);
      ExchangeSelects(Pass(s, i, j - 1), i, j - 1);
    }
  }

  /** A pass brings to i the newest of what it has seen, the first one among equals. */
  lemma {:induction false} PassSelects(s: seq<Manifest>, i: nat, j: nat)
    requires i < j <= |s|
    ensures Pass(s, i, j)[i] == Newest(s, i, j)
    ensures forall k :: i <= k < j ==> Pass(s, i, j)[k].createdAt <= Pass(s, i, j)[i].createdAt
    decreases j
  {
    if j > i + 1 {
      PassSelects(s, i, j - 1);
      PassFrame(s, i, j - 1);
      ExchangeSelects(Pass(s, i, j - 1), i, j - 1);
    }
  }

  /** The elements a pass rearranges are those from i on. */
  lemma {:induction false} PassBounded(s: seq<Manifest>, i: nat, j: nat, bound: int)
    requires i < j <= |s|
    requires forall k :: i <= k < |s| ==> s[k].createdAt <= bound
    ensures forall k :: i <= k < |s| ==> Pass(s, i, j)[k].createdAt <= bound
    decreases j
  {
    if j > i + 1 { PassBounded(s, i, j - 1, bound); }
  }

  lemma {:induction false} PassesSort(s: seq<Manifest>, i: nat)
    requires i <= |s|
    ensures var r := Passes(s, i);
      && (forall p, q :: 0 <= p < i && p < q < |s| ==> r[p].createdAt >= r[q].createdAt)
      && (i > 0 ==> r[0] == s[FirstNewest(s)])
    decreases i
  {
    if i > 0 {
      var before, r := Passes(s, i - 1), Passes(s, i);
      PassesSort(s, i - 1);
      PassSelects(before, i - 1, |s|);
      PassFrame(before, i - 1, |s|);
      forall p, q | 0 <= p < i && p < q < |s|
        ensures r[p].createdAt >= r[q].createdAt
      {
        if p < i - 1 <= q { PassBounded(before, i - 1, |s|, before[p].createdAt); }
      }
      if i == 1 {
        NewestIsFirst(s, |s|);
        assert s[..|s|] == s;
      }
    }
  }

  /** The exchange sort of listBackupsFromDir: newest first, nothing lost, and at its head the
      very backup IsDuplicate compares with, ties included. */
  method SortNewestFirst(a: array<Manifest>)
    modifies a
    ensures multiset(a[..]) == multiset(old(a[..])) && NewestFirst(a[..])
    ensures a.Length > 0 ==> a[0] == old(a[..])[FirstNewest(old(a[..]))]
  {
    ghost var before := a[..];
    var i := 0;
    while i < a.Length
      invariant 0 <= i <= a.Length
      invariant a[..] == Passes(before, i)
    {
      ghost var start := a[..];
      var j := i + 1;
      while j < a.Length
        invariant i < j <= a.Length
        invariant a[..] == Pass(start, i, j)
      {
        ghost var now := a[..];
        if a[j].createdAt > a[i].createdAt {
          a[i], a[j] := a[j], a[i];
        }
        assert a[..] == Exchange(now, i, j);
        j := j + 1;
      }
      i := i + 1;
    }
    PassesSort(before, i);
    PassesPermute(before, i);
  }

  /** resolveRestoreTarget over the sorted listing. */
  method ResolveRestoreTarget(target: string, backups: seq<Manifest>) returns (r: Option<Manifest>)
    ensures target == "latest" ==> r == if backups == [] then None else Some(backups[0])
    ensures target != "latest" && r.None? ==> forall k :: 0 <= k < |backups| ==> backups[k].id != target
    ensures target != "latest" && r.Some? ==>
              exists k :: 0 <= k < |backups| && backups[k] == r.value && backups[k].id == target
                && forall j :: 0 <= j < k ==> backups[j].id != target
  {
    if target == "latest" {
      if |backups| == 0 { return None; }
      return Some(backups[0]);
    }
    var i := 0;
    while i < |backups|
      invariant 0 <= i <= |backups|
      invariant forall k :: 0 <= k < i ==> backups[k].id != target
    {
      if backups[i].id == target { return Some(backups[i]); }
      i := i + 1;
    }
    r := None;
  }

  /** "restore latest" and the duplicate check look at the same backup. */
  method LatestAgrees(a: array<Manifest>, checksum: string) returns (duplicate: bool, target: Option<Manifest>)
    modifies a
    ensures target.Some? <==> a.Length > 0
    ensures duplicate ==> target.Some? && target.value.checksum == checksum
    ensures target.Some? && checksum != "" && target.value.checksum == checksum ==> duplicate
  {
    duplicate := IsDuplicate(a[..], checksum);
    SortNewestFirst(a);
    target := ResolveRestoreTarget("latest", a[..]);
  }

  // ---------------------------------------------------------------- pruning

  function Unpinned(ms: seq<Manifest>): seq<Manifest> {
    if ms == [] then []
    else (if ms[0].pinned then [] else [ms[0]]) + Unpinned(ms[1..])
  }

  /** What Prune selects from the manifests once they are sorted. */
  function Excess(sorted: seq<Manifest>, count: int): seq<Manifest> {
    if count <= 0 || |Unpinned(sorted)| <= count then [] else Unpinned(sorted)[count..]
  }

  /** DeleteBackup gets as far as removing the directory: its guard accepts it and the removal
      does not fail. */
  predicate Deletable(env: Env, stuck: set<string>, m: Manifest) {
    m.rootDir != "" && UnderBackupRoot(env, m.rootDir) && m.rootDir !in stuck
  }

  /** DeleteBackup removes whatever lies at or below the manifest's own idea of its directory. */
  function Delete(env: Env, stuck: set<string>, inv: seq<Slot>, m: Manifest): seq<Slot> {
    if Deletable(env, stuck, m) then Outside(inv, Components(m.rootDir)) else inv
  }

  function Outside(inv: seq<Slot>, p: Path): (r: seq<Slot>)
    ensures forall s :: s in r <==> s in inv && !Within(p, s.dir)
  {
    if inv == [] then []
    else (if Within(p, inv[0].dir) then [] else [inv[0]]) + Outside(inv[1..], p)
  }

  function DeleteAll(env: Env, stuck: set<string>, inv: seq<Slot>, ms: seq<Manifest>): seq<Slot>
    decreases |ms|
  {
    if ms == [] then inv else DeleteAll(env, stuck, Delete(env, stuck, inv, ms[0]), ms[1..])
  }

  function DeletedIds(env: Env, stuck: set<string>, ms: seq<Manifest>): seq<string> {
    if ms == [] then []
    else (if Deletable(env, stuck, ms[0]) then [ms[0].id] else []) + DeletedIds(env, stuck, ms[1..])
  }

  /** A backup survives exactly when no deleted manifest names its directory or one above it. */
  lemma {:induction false} SurvivesIff(env: Env, stuck: set<string>, inv: seq<Slot>, ms: seq<Manifest>, s: Slot)
    ensures s in DeleteAll(env, stuck, inv, ms)
            <==> s in inv && forall m :: m in ms && Deletable(env, stuck, m) ==> !Within(Components(m.rootDir), s.dir)
    decreases |ms|
  {
    if ms != [] {
      SurvivesIff(env, stuck, Delete(env, stuck, inv, ms[0]), ms[1..], s);
      assert forall m :: m in ms <==> m == ms[0] || m in ms[1..];
    }
  }
}
