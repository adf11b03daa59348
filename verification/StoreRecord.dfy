/** The loaded record as it lives in memory: objects are member cells that the decoded tree
    shares, so an edit made through state or recovery is seen through root. */
module StoreRecord {
  import opened Text
  import opened Json
  import opened JsonRoundTrip
  import opened JsonIndent
  import opened Store

  /** A decoded value. An object is a reference to its cells; nothing writes into an array. */
  datatype Node =
    | Scalar(v: Value)
    | Obj(cells: array<Cell>)
    | Arr(items: seq<Node>)

  datatype Cell = Cell(key: string, node: Node)

  /** Which cells a node is made of; the value is read from the heap through it. */
  datatype Shape = Leaf | ObjShape(cells: array<Cell>, kids: seq<Shape>) | ArrShape(kids: seq<Shape>)

  ghost function Foot(sh: Shape): set<array<Cell>> {
    match sh
    case Leaf => {}
    case ObjShape(a, kids) => {a} + FootAll(kids)
    case ArrShape(kids) => FootAll(kids)
  }

  ghost function FootAll(kids: seq<Shape>): set<array<Cell>> {
    if kids == [] then {} else Foot(kids[0]) + FootAll(kids[1..])
  }

  /** No cells are shared between two places of the tree. */
  ghost predicate Sep(sh: Shape) {
    match sh
    case Leaf => true
    case ObjShape(a, kids) => a !in FootAll(kids) && SepAll(kids)
    case ArrShape(kids) => SepAll(kids)
  }

  ghost predicate SepAll(kids: seq<Shape>) {
    kids == [] || (Sep(kids[0]) && SepAll(kids[1..]) && Foot(kids[0]) !! FootAll(kids[1..]))
  }

  ghost predicate Fits(n: Node, sh: Shape)
    reads Foot(sh)
    decreases sh
  {
    match sh
    case Leaf => n.Scalar? && !n.v.Object? && !n.v.Array?
    case ObjShape(a, kids) => n == Obj(a) && FitsCells(a[..], kids)
    case ArrShape(kids) => n.Arr? && FitsItems(n.items, kids)
  }

  ghost predicate FitsCells(cells: seq<Cell>, kids: seq<Shape>)
    reads FootAll(kids)
    ensures FitsCells(cells, kids) ==> |cells| == |kids|
    decreases kids
  {
    if kids == [] then cells == []
    else cells != [] && Fits(cells[0].node, kids[0]) && FitsCells(cells[1..], kids[1..])
  }

  ghost predicate FitsItems(items: seq<Node>, kids: seq<Shape>)
    reads FootAll(kids)
    ensures FitsItems(items, kids) ==> |items| == |kids|
    decreases kids
  {
    if kids == [] then items == []
    else items != [] && Fits(items[0], kids[0]) && FitsItems(items[1..], kids[1..])
  }

  /** The tree a node stands for in the current heap. */
  ghost function Read(n: Node, sh: Shape): Value
    requires Fits(n, sh)
    reads Foot(sh)
    decreases sh
  {
    match sh
    case Leaf => n.v
    case ObjShape(a, kids) => Object(ReadCells(a[..], kids))
    case ArrShape(kids) => Array(ReadItems(n.items, kids))
  }

  ghost function ReadCells(cells: seq<Cell>, kids: seq<Shape>): (ms: seq<Member>)
    requires FitsCells(cells, kids)
    reads FootAll(kids)
    ensures |ms| == |cells| == |kids|
    decreases kids
  {
    if kids == [] then []
    else [Member(cells[0].key, Read(cells[0].node, kids[0]))] + ReadCells(cells[1..], kids[1..])
  }

  ghost function ReadItems(items: seq<Node>, kids: seq<Shape>): (vs: seq<Value>)
    requires FitsItems(items, kids)
    reads FootAll(kids)
    ensures |vs| == |items| == |kids|
    decreases kids
  {
    if kids == [] then []
    else [Read(items[0], kids[0])] + ReadItems(items[1..], kids[1..])
  }

  lemma {:induction false} CellAt(cells: seq<Cell>, kids: seq<Shape>, i: nat)
    requires FitsCells(cells, kids) && i < |kids|
    ensures i < |cells| && Foot(kids[i]) <= FootAll(kids) && Fits(cells[i].node, kids[i])
    ensures ReadCells(cells, kids)[i] == Member(cells[i].key, Read(cells[i].node, kids[i]))
    decreases kids
  {
    if i > 0 {
      CellAt(cells[1..], kids[1..], i - 1);
    }
  }

  /** One cell and its shape replaced, the other cells reading as before. */
  lemma {:induction false} CellReplaced(cells: seq<Cell>, kids: seq<Shape>, i: nat, c: Cell, sh: Shape)
    requires FitsCells(cells, kids) && i < |kids| && Fits(c.node, sh)
    ensures FitsCells(cells[i := c], kids[i := sh])
    ensures ReadCells(cells[i := c], kids[i := sh]) == ReadCells(cells, kids)[i := Member(c.key, Read(c.node, sh))]
    decreases kids
  {
    var cells', kids' := cells[i := c], kids[i := sh];
    if i == 0 {
      assert cells'[1..] == cells[1..] && kids'[1..] == kids[1..];
    } else {
      CellReplaced(cells[1..], kids[1..], i - 1, c, sh);
      assert cells'[1..] == cells[1..][i - 1 := c] && kids'[1..] == kids[1..][i - 1 := sh];
    }
  }

  /** Replacing a shape by a smaller one keeps the tree unshared. */
  lemma {:induction false} SepReplaced(kids: seq<Shape>, i: nat, sh: Shape)
    requires SepAll(kids) && i < |kids| && Sep(sh) && Foot(sh) <= Foot(kids[i])
    ensures SepAll(kids[i := sh]) && FootAll(kids[i := sh]) <= FootAll(kids)
    decreases kids
  {
    var kids' := kids[i := sh];
    if i == 0 {
      assert kids'[1..] == kids[1..];
    } else {
      SepReplaced(kids[1..], i - 1, sh);
      assert kids'[1..] == kids[1..][i - 1 := sh];
    }
  }

  lemma {:induction false} SepAt(kids: seq<Shape>, i: nat)
    requires SepAll(kids) && i < |kids|
    ensures Sep(kids[i]) && Foot(kids[i]) <= FootAll(kids)
    decreases kids
  {
    if i > 0 {
      SepAt(kids[1..], i - 1);
    }
  }

  // ---------------------------------------------------------------- lookups and writes on cells

  /** Cells that a shape mentions exist, so a loop that writes nothing leaves them alone. */
  lemma {:induction false} FootAllocated(sh: Shape)
    ensures forall o :: o in Foot(sh) ==> allocated(o)
    decreases sh
  {
    match sh
    case Leaf =>
    case ObjShape(a, kids) => FootAllAllocated(kids);
    case ArrShape(kids) => FootAllAllocated(kids);
  }

  lemma {:induction false} FootAllAllocated(kids: seq<Shape>)
    ensures forall o :: o in FootAll(kids) ==> allocated(o)
    decreases kids
  {
    if kids != [] {
      FootAllocated(kids[0]);
      FootAllAllocated(kids[1..]);
    }
  }

  /** orderedMember on the heap. */
  method OrderedMember(n: Node, key: string, ghost sh: Shape) returns (r: Option<Node>, ghost i: int)
    requires Fits(n, sh)
    ensures Fits(n, sh)
    ensures r.Some? <==> MemberOf(Read(n, sh), key).Some?
    ensures r.Some? ==> sh.ObjShape? && i == FirstMember(Read(n, sh).members, key) && 0 <= i < |sh.kids|
                        && sh.cells[i].node == r.value
                        && Fits(r.value, sh.kids[i]) && MemberOf(Read(n, sh), key) == Some(Read(r.value, sh.kids[i]))
  {
    if !n.Obj? { return None, -1; }
    FootAllocated(sh);
    var k := FirstCell(n.cells, key, sh);
    if k == n.cells.Length { return None, -1; }
    CellAt(n.cells[..], sh.kids, k);
    return Some(n.cells[k].node), k;
  }

  /** What an object reads as once one of its cells has been overwritten with a string. */
  lemma Written(n: Node, sh: Shape, before: seq<Cell>, k: nat, key: string, next: string)
    requires sh.ObjShape? && n == Obj(sh.cells) && Sep(sh) && FitsCells(before, sh.kids) && k < |before|
    requires sh.cells[..] == before[k := Cell(key, Scalar(Str(next)))]
    ensures var sh' := ObjShape(sh.cells, sh.kids[k := Leaf]);
      Fits(n, sh') && Sep(sh') && Foot(sh') <= Foot(sh)
        && Read(n, sh') == Object(ReadCells(before, sh.kids)[k := Member(key, Str(next))])
  {
    CellReplaced(before, sh.kids, k, Cell(key, Scalar(Str(next))), Leaf);
    SepReplaced(sh.kids, k, Leaf);
  }

  /** setOrderedMember on the heap, with the strings it is called with: one cell is written. */
  method SetOrderedMember(n: Node, key: string, next: string, ghost sh: Shape) returns (ok: bool, ghost sh': Shape)
    requires Fits(n, sh) && Sep(sh)
    modifies if n.Obj? then {n.cells} else {}
    ensures ok <==> old(SetMember(Read(n, sh), key, Str(next))).Some?
    ensures Fits(n, sh') && Sep(sh') && Foot(sh') <= Foot(sh)
    ensures Read(n, sh') == if ok then old(SetMember(Read(n, sh), key, Str(next))).value else old(Read(n, sh))
    ensures ok ==> sh.ObjShape? && sh'.ObjShape? && sh'.cells == sh.cells
    ensures ok ==>
              n.cells[..] == old(n.cells[..][FirstMember(Read(n, sh).members, key) := Cell(key, Scalar(Str(next)))])
  {
    if !n.Obj? { return false, sh; }
    FootAllocated(sh);
    ghost var before, ms := n.cells[..], Read(n, sh).members;
    var k := FirstCell(n.cells, key, sh);
    if k == n.cells.Length { return false, sh; }
    CellAt(before, sh.kids, k);
    n.cells[k] := Cell(key, Scalar(Str(next)));
    assert n.cells[..] == before[k := Cell(key, Scalar(Str(next)))];
    Written(n, sh, before, k, key, next);
    return true, ObjShape(sh.cells, sh.kids[k := Leaf]);
  }

  /** The position of the first cell with the key, or the number of cells. */
  method FirstCell(cells: array<Cell>, key: string, ghost sh: Shape) returns (k: nat)
    requires Fits(Obj(cells), sh)
    ensures Fits(Obj(cells), sh) && Read(Obj(cells), sh) == old(Read(Obj(cells), sh)) && cells[..] == old(cells[..])
    ensures var i := FirstMember(Read(Obj(cells), sh).members, key); k == if i < 0 then cells.Length else i
  {
    FootAllocated(sh);
    ghost var before, ms := cells[..], Read(Obj(cells), sh).members;
    k := 0;
    while k < cells.Length
      invariant 0 <= k <= cells.Length == |before|
      invariant cells[..] == before && Fits(Obj(cells), sh) && Read(Obj(cells), sh) == Object(ms)
      invariant forall j :: 0 <= j < k ==> ms[j].key != key
    {
      CellAt(before, sh.kids, k);
      if cells[k].key == key {
        assert FirstMember(ms, key) == k;
        return;
      }
      k := k + 1;
    }
  }

  lemma {:induction false} SepApart(kids: seq<Shape>, i: nat, j: nat)
    requires SepAll(kids) && i < |kids| && j < |kids| && i != j
    ensures Foot(kids[i]) !! Foot(kids[j])
    decreases kids
  {
    if i == 0 {
      SepAt(kids[1..], j - 1);
    } else if j == 0 {
      SepAt(kids[1..], i - 1);
    } else {
      SepApart(kids[1..], i - 1, j - 1);
    }
  }

  /** An object whose cells all read as ms, except that the one at j now has shape sh. */
  lemma {:induction false} CellsRewritten(cells: seq<Cell>, kids: seq<Shape>, j: nat, sh: Shape, ms: seq<Member>)
    requires |cells| == |kids| == |ms| && j < |kids| && Fits(cells[j].node, sh)
    requires forall i :: 0 <= i < |kids| && i != j ==>
               Fits(cells[i].node, kids[i]) && ms[i] == Member(cells[i].key, Read(cells[i].node, kids[i]))
    ensures FitsCells(cells, kids[j := sh])
    ensures ReadCells(cells, kids[j := sh]) == ms[j := Member(cells[j].key, Read(cells[j].node, sh))]
    decreases |kids|
  {
    CellsAll(cells, kids[j := sh], ms[j := Member(cells[j].key, Read(cells[j].node, sh))]);
  }

  lemma {:induction false} CellsAll(cells: seq<Cell>, kids: seq<Shape>, ms: seq<Member>)
    requires |cells| == |kids| == |ms|
    requires forall i :: 0 <= i < |kids| ==>
               Fits(cells[i].node, kids[i]) && ms[i] == Member(cells[i].key, Read(cells[i].node, kids[i]))
    ensures FitsCells(cells, kids) && ReadCells(cells, kids) == ms
    decreases |kids|
  {
    if kids != [] {
      CellsAll(cells[1..], kids[1..], ms[1..]);
    }
  }

  // ---------------------------------------------------------------- decoding into cells, encoding out of them

  /** The cells the decoder allocates for a tree: all new, none shared. */
  method Allocate(v: Value) returns (n: Node, ghost sh: Shape)
    ensures Fits(n, sh) && Sep(sh) && Read(n, sh) == v && fresh(Foot(sh))
    decreases v, 0
  {
    match v
    case Object(ms) =>
      var cells;
      ghost var kids;
      cells, kids := AllocateMembers(ms);
      FootAllAllocated(kids);
      var a := new Cell[|cells|](i requires 0 <= i < |cells| => cells[i]);
      assert a[..] == cells;
      return Obj(a), ObjShape(a, kids);
    case Array(vs) =>
      var items;
      ghost var kids;
      items, kids := AllocateItems(vs);
      return Arr(items), ArrShape(kids);
    case _ => return Scalar(v), Leaf;
  }

  method AllocateMembers(ms: seq<Member>) returns (cells: seq<Cell>, ghost kids: seq<Shape>)
    ensures FitsCells(cells, kids) && SepAll(kids) && ReadCells(cells, kids) == ms && fresh(FootAll(kids))
    decreases ms, 1
  {
    if ms == [] { return [], []; }
    var n;
    ghost var sh;
    n, sh := Allocate(ms[0].value);
    FootAllocated(sh);
    var moreCells;
    ghost var moreKids;
    moreCells, moreKids := AllocateMembers(ms[1..]);
    cells, kids := [Cell(ms[0].key, n)] + moreCells, [sh] + moreKids;
    assert kids[1..] == moreKids && cells[1..] == moreCells;
  }

  method AllocateItems(vs: seq<Value>) returns (items: seq<Node>, ghost kids: seq<Shape>)
    ensures FitsItems(items, kids) && SepAll(kids) && ReadItems(items, kids) == vs && fresh(FootAll(kids))
    decreases vs, 1
  {
    if vs == [] { return [], []; }
    var n;
    ghost var sh;
    n, sh := Allocate(vs[0]);
    FootAllocated(sh);
    var moreItems;
    ghost var moreKids;
    moreItems, moreKids := AllocateItems(vs[1..]);
    items, kids := [n] + moreItems, [sh] + moreKids;
    assert kids[1..] == moreKids && items[1..] == moreItems;
  }

  /** The members' text from position i on. */
  ghost function MembersFrom(ms: seq<Member>, i: nat): string
    requires i <= |ms|
  {
    if i == 0 then EncodeMembers(ms) else if i == |ms| then "" else "," + EncodeMembers(ms[i..])
  }

  lemma MembersFromStep(ms: seq<Member>, i: nat)
    requires i < |ms|
    ensures MembersFrom(ms, i) == (if i > 0 then "," else "") + (Quote(ms[i].key) + ":" + Encode(ms[i].value))
            + MembersFrom(ms, i + 1)
  {
    assert ms[i..][1..] == ms[i + 1..];
    assert ms[0..] == ms;
  }

  ghost function ItemsFrom(vs: seq<Value>, i: nat): string
    requires i <= |vs|
  {
    if i == 0 then EncodeItems(vs) else if i == |vs| then "" else "," + EncodeItems(vs[i..])
  }

  lemma ItemsFromStep(vs: seq<Value>, i: nat)
    requires i < |vs|
    ensures ItemsFrom(vs, i) == (if i > 0 then "," else "") + Encode(vs[i]) + ItemsFrom(vs, i + 1)
  {
    assert vs[i..][1..] == vs[i + 1..];
    assert vs[0..] == vs;
  }

  lemma {:induction false} ItemAt(items: seq<Node>, kids: seq<Shape>, i: nat)
    requires FitsItems(items, kids) && i < |kids|
    ensures i < |items| && Fits(items[i], kids[i]) && ReadItems(items, kids)[i] == Read(items[i], kids[i])
    decreases kids
  {
    if i > 0 {
      ItemAt(items[1..], kids[1..], i - 1);
    }
  }

  lemma Buffered(out: string, comma: string, piece: string, rest: string)
    ensures out + (comma + piece + rest) == out + comma + piece + rest
  {
  }

  /** encodeOrderedJSON over the cells. */
  method EncodeOrdered(n: Node, ghost sh: Shape) returns (out: string)
    requires Fits(n, sh)
    ensures Fits(n, sh) && out == Encode(Read(n, sh))
    decreases sh, 1
  {
    match n
    case Scalar(v) => return Encode(v);
    case Obj(cells) =>
      out := EncodeCells(cells, sh);
    case Arr(items) =>
      out := EncodeArray(items, sh);
  }

  method EncodeCells(cells: array<Cell>, ghost sh: Shape) returns (out: string)
    requires Fits(Obj(cells), sh)
    ensures Fits(Obj(cells), sh) && out == Encode(Read(Obj(cells), sh))
    decreases sh, 0
  {
    FootAllocated(sh);
    ghost var ms := Read(Obj(cells), sh).members;
    out := "{";
    var i := 0;
    while i < cells.Length
      invariant 0 <= i <= cells.Length == |ms|
      invariant Fits(Obj(cells), sh) && Read(Obj(cells), sh) == Object(ms)
      invariant out + MembersFrom(ms, i) == "{" + EncodeMembers(ms)
    {
      CellAt(cells[..], sh.kids, i);
      MembersFromStep(ms, i);
      var text := EncodeOrdered(cells[i].node, sh.kids[i]);
      assert Fits(Obj(cells), sh) && Read(Obj(cells), sh) == Object(ms);
      CellAt(cells[..], sh.kids, i);
      assert text == Encode(ms[i].value);
      var comma := if i > 0 then "," else "";
      Buffered(out, comma, Quote(cells[i].key) + ":" + text, MembersFrom(ms, i + 1));
      out := out + comma + (Quote(cells[i].key) + ":" + text);
      i := i + 1;
    }
    out := out + "}";
  }

  method EncodeArray(items: seq<Node>, ghost sh: Shape) returns (out: string)
    requires Fits(Arr(items), sh)
    ensures Fits(Arr(items), sh) && out == Encode(Read(Arr(items), sh))
    decreases sh, 0
  {
    FootAllocated(sh);
    ghost var vs := Read(Arr(items), sh).items;
    out := "[";
    var i := 0;
    while i < |items|
      invariant 0 <= i <= |items| == |vs|
      invariant Fits(Arr(items), sh) && Read(Arr(items), sh) == Array(vs)
      invariant out + ItemsFrom(vs, i) == "[" + EncodeItems(vs)
    {
      ItemAt(items, sh.kids, i);
      ItemsFromStep(vs, i);
      var text := EncodeOrdered(items[i], sh.kids[i]);
      assert Fits(Arr(items), sh) && Read(Arr(items), sh) == Array(vs);
      ItemAt(items, sh.kids, i);
      assert text == Encode(vs[i]);
      var comma := if i > 0 then "," else "";
      Buffered(out, comma, text, ItemsFrom(vs, i + 1));
      out := out + comma + text;
      i := i + 1;
    }
    out := out + "]";
  }

  /** Every cell but the one at i reads as in ms and owns no cell in apart. */
  ghost predicate OthersRead(cells: seq<Cell>, kids: seq<Shape>, i: nat, ms: seq<Member>, apart: set<array<Cell>>)
    requires |cells| == |kids| == |ms|
    reads FootAll(kids), set l: nat, o | l < |kids| && o in Foot(kids[l]) :: o
  {
    forall l :: 0 <= l < |kids| && l != i ==>
      apart !! Foot(kids[l]) && Fits(cells[l].node, kids[l])
        && ms[l] == Member(cells[l].key, Read(cells[l].node, kids[l]))
  }

  lemma OthersApart(cells: seq<Cell>, kids: seq<Shape>, i: nat, apart: set<array<Cell>>)
    requires FitsCells(cells, kids) && SepAll(kids) && i < |kids| && apart <= Foot(kids[i])
    ensures OthersRead(cells, kids, i, ReadCells(cells, kids), apart)
  {
    forall l | 0 <= l < |kids| && l != i
      ensures apart !! Foot(kids[l]) && Fits(cells[l].node, kids[l])
      ensures ReadCells(cells, kids)[l] == Member(cells[l].key, Read(cells[l].node, kids[l]))
    {
      CellAt(cells, kids, l);
      SepApart(kids, l, i);
    }
  }

  /** An object one of whose members has been rewritten in place, seen from above. */
  lemma Rewritten(n: Node, sh: Shape, i: nat, child: Shape, ms: seq<Member>, apart: set<array<Cell>>)
    requires sh.ObjShape? && n == Obj(sh.cells) && Sep(sh) && |sh.kids| == |ms| == sh.cells.Length && i < |ms|
    requires OthersRead(sh.cells[..], sh.kids, i, ms, apart) && ms[i].key == sh.cells[i].key
    requires Fits(sh.cells[i].node, child) && Sep(child) && Foot(child) <= Foot(sh.kids[i])
    ensures var sh' := ObjShape(sh.cells, sh.kids[i := child]);
      && Fits(n, sh') && Sep(sh') && Foot(sh') <= Foot(sh)
      && Read(n, sh') == Object(ms[i := Member(ms[i].key, Read(sh.cells[i].node, child))])
  {
    SepReplaced(sh.kids, i, child);
    CellsRewritten(sh.cells[..], sh.kids, i, child, ms);
  }

  /** The edit as it is made: the recovery object is looked up in the state node and written in
      place, so whatever else holds the state node sees the edited state. */
  method SetInRecovery(n: Node, key: string, value: string, ghost sh: Shape) returns (ok: bool, ghost sh': Shape)
    requires Fits(n, sh) && Sep(sh)
    modifies Foot(sh)
    ensures ok <==> old(EditState(Read(n, sh), key, value)).Some?
    ensures Fits(n, sh') && Sep(sh') && Foot(sh') <= Foot(sh)
    ensures Read(n, sh') == if ok then old(EditState(Read(n, sh), key, value)).value else old(Read(n, sh))
  {
    FootAllocated(sh);
    ghost var state := Read(n, sh);
    var found;
    ghost var j;
    found, j := OrderedMember(n, "recovery", sh);
    if found.None? { return false, sh; }
    ghost var recovery := Read(found.value, sh.kids[j]);
    assert EditState(state, key, value).Some? <==> SetMember(recovery, key, Str(value)).Some?;
    SepAt(sh.kids, j);
    ghost var child;
    ok, child := OverwriteInside(n, found.value, j, key, value, sh);
    sh' := ObjShape(sh.cells, sh.kids[j := child]);
  }

  /** The write itself, and what the enclosing object reads as after it. */
  method OverwriteInside(n: Node, inner: Node, ghost j: nat, key: string, value: string, ghost sh: Shape)
    returns (ok: bool, ghost child: Shape)
    requires Fits(n, sh) && Sep(sh) && sh.ObjShape? && j < |sh.kids| == sh.cells.Length
    requires sh.cells[j].node == inner && Fits(inner, sh.kids[j])
    modifies Foot(sh.kids[j])
    ensures ok <==> old(SetMember(Read(inner, sh.kids[j]), key, Str(value))).Some?
    ensures var sh' := ObjShape(sh.cells, sh.kids[j := child]);
      && Fits(n, sh') && Sep(sh') && Foot(sh') <= Foot(sh)
      && Read(n, sh') == Object(old(Read(n, sh).members)[j := Member(old(Read(n, sh).members[j].key),
           if ok then old(SetMember(Read(inner, sh.kids[j]), key, Str(value))).value
             else old(Read(inner, sh.kids[j])))])
  {
    FootAllAllocated(sh.kids);
    SepAt(sh.kids, j);
    CellAt(sh.cells[..], sh.kids, j);
    ghost var ms := Read(n, sh).members;
    ghost var apart := Foot(sh.kids[j]);
    OthersApart(sh.cells[..], sh.kids, j, apart);
    assert inner.Obj? ==> inner.cells in apart;
    ghost var cells, kids := sh.cells[..], sh.kids;
    ok, child := SetOrderedMember(inner, key, value, sh.kids[j]);
    forall l | 0 <= l < |kids| && l != j
      ensures Fits(cells[l].node, kids[l]) && ms[l] == Member(cells[l].key, Read(cells[l].node, kids[l]))
    {
      SepAt(kids, l);
      assert old(Fits(cells[l].node, kids[l])) && apart !! Foot(kids[l]);
    }
    assert sh.cells[..] == cells;
    Rewritten(n, sh, j, child, ms, apart);
  }

  /** SetInRecovery, and what root reads as after it. */
  method EditInside(n: Node, inner: Node, ghost i: nat, key: string, value: string, ghost sh: Shape)
    returns (ok: bool, ghost child: Shape)
    requires Fits(n, sh) && Sep(sh) && sh.ObjShape? && i < |sh.kids| == sh.cells.Length
    requires sh.cells[i].node == inner && Fits(inner, sh.kids[i])
    modifies Foot(sh.kids[i])
    ensures ok <==> old(EditState(Read(inner, sh.kids[i]), key, value)).Some?
    ensures sh.cells[..] == old(sh.cells[..])
    ensures var sh' := ObjShape(sh.cells, sh.kids[i := child]);
      && Fits(n, sh') && Sep(sh') && Foot(sh') <= Foot(sh)
      && Read(n, sh') == Object(old(Read(n, sh).members)[i := Member(old(Read(n, sh).members[i].key),
           if ok then old(EditState(Read(inner, sh.kids[i]), key, value)).value else old(Read(inner, sh.kids[i])))])
  {
    FootAllAllocated(sh.kids);
    SepAt(sh.kids, i);
    CellAt(sh.cells[..], sh.kids, i);
    ghost var ms := Read(n, sh).members;
    ghost var apart := Foot(sh.kids[i]);
    OthersApart(sh.cells[..], sh.kids, i, apart);
    ghost var cells, kids := sh.cells[..], sh.kids;
    ok, child := SetInRecovery(inner, key, value, sh.kids[i]);
    forall l | 0 <= l < |kids| && l != i
      ensures Fits(cells[l].node, kids[l]) && ms[l] == Member(cells[l].key, Read(cells[l].node, kids[l]))
    {
      SepAt(kids, l);
      assert old(Fits(cells[l].node, kids[l])) && apart !! Foot(kids[l]);
    }
    assert sh.cells[..] == cells;
    Rewritten(n, sh, i, child, ms, apart);
  }

  /** What an edit of a record is, in terms of its state member. */
  lemma EditIn(root: Value, key: string, value: string)
    requires Record(root)
    ensures var i := FirstMember(root.members, "state");
      && (EditRecovery(root, key, value).Some? <==> EditState(root.members[i].value, key, value).Some?)
      && (EditRecovery(root, key, value).Some? ==>
            EditRecovery(root, key, value).value
            == Object(root.members[i := Member("state", EditState(root.members[i].value, key, value).value)]))
      && Object(root.members[i := Member("state", root.members[i].value)]) == root
      && (forall v :: FirstMember(root.members[i := Member("state", v)], "state") == i)
  {
    var i := FirstMember(root.members, "state");
    forall v
      ensures FirstMember(root.members[i := Member("state", v)], "state") == i
    {
      FirstMemberKept(root.members, i, v, "state");
    }
  }

  /** Stamping writes the revision cell only, and leaves the state member where it was. */
  lemma StampCells(sha: string -> string, root: Value)
    requires Record(root)
    ensures var i, revision := FirstMember(root.members, "revision"), Revision(sha, MemberOf(root, "state").value);
      && i >= 0 && i != FirstMember(root.members, "state")
      && Stamp(sha, root) == SetMember(root, "revision", Str(revision))
      && Stamp(sha, root) == Some(Object(root.members[i := Member("revision", Str(revision))]))
      && Record(Stamp(sha, root).value)
      && FirstMember(Stamp(sha, root).value.members, "state") == FirstMember(root.members, "state")
      && StringOf(Stamp(sha, root).value, "revision") == Some(revision)
  {
    var revision := Revision(sha, MemberOf(root, "state").value);
    FirstMemberKept(root.members, FirstMember(root.members, "revision"), Str(revision), "state");
    SetMemberKeeps(root, "revision", Str(revision), "revision");
    SetMemberKeeps(root, "revision", Str(revision), "state");
  }

  lemma EditKeepsRecordIfAny(root: Value, key: string, value: string)
    requires Record(root)
    ensures EditRecovery(root, key, value).Some? ==> Record(EditRecovery(root, key, value).value)
  {
    if EditRecovery(root, key, value).Some? { EditKeepsRecord(root, key, value); }
  }

  // ---------------------------------------------------------------- the record

  class Disk {
    var files: map<string, string>

    constructor (files: map<string, string>)
      ensures this.files == files
    {
      this.files := files;
    }
  }

  class LoadedRecord {
    const path: string
    const sha: string -> string
    var root: Node
    var state: Node
    ghost var shape: Shape

    /** state is the very node held by the first state member of root, not a copy of it. */
    ghost predicate Valid()
      reads this, Foot(shape)
    {
      && Fits(root, shape) && Sep(shape) && shape.ObjShape?
      && Record(Tree())
      && shape.cells[FirstMember(Tree().members, "state")].node == state
    }

    ghost function Tree(): Value
      requires Fits(root, shape)
      reads this, Foot(shape)
    {
      Read(root, shape)
    }

    constructor Decoded(path: string, sha: string -> string, root: Node, state: Node, ghost shape: Shape)
      requires Fits(root, shape) && Sep(shape) && shape.ObjShape? && Record(Read(root, shape))
      requires shape.cells[FirstMember(Read(root, shape).members, "state")].node == state
      ensures Valid() && this.root == root && this.shape == shape && this.path == path && this.sha == sha
    {
      FootAllocated(shape);
      this.path := path;
      this.sha := sha;
      this.root := root;
      this.state := state;
      this.shape := shape;
    }

    /** deriveRevision. */
    method DeriveRevision() returns (revision: string)
      requires Valid()
      ensures Valid() && Tree() == old(Tree())
      ensures revision == Revision(sha, MemberOf(Tree(), "state").value)
    {
      ghost var i := FirstMember(Tree().members, "state");
      FootAllocated(shape);
      CellAt(shape.cells[..], shape.kids, i);
      var text := EncodeOrdered(state, shape.kids[i]);
      assert Valid();
      CellAt(shape.cells[..], shape.kids, i);
      revision := "sha256:" + sha(STATE_PREFIX + text);
    }

    /** setRecoveryString: one cell deep inside the shared tree is overwritten, and root reads as
        the edited tree. A failed edit changes nothing. */
    method SetRecoveryString(key: string, value: string) returns (ok: bool)
      requires Valid()
      modifies this`shape, Foot(shape)
      ensures Valid() && Foot(shape) <= old(Foot(shape)) && root == old(root) && state == old(state)
      ensures ok <==> old(EditRecovery(Tree(), key, value)).Some?
      ensures Tree() == if ok then old(EditRecovery(Tree(), key, value)).value else old(Tree())
    {
      ghost var before := Tree();
      ghost var i := FirstMember(before.members, "state");
      CellAt(shape.cells[..], shape.kids, i);
      SepAt(shape.kids, i);
      ghost var old_ := Read(state, shape.kids[i]);
      assert before.members[i] == Member("state", old_);
      ghost var child;
      ok, child := EditInside(root, state, i, key, value, shape);
      assert ok <==> EditState(old_, key, value).Some?;
      shape := ObjShape(shape.cells, shape.kids[i := child]);
      assert Tree()
             == Object(before.members[i := Member("state", if ok then EditState(old_, key, value).value else old_)]);
      EditIn(before, key, value);
      EditKeepsRecordIfAny(before, key, value);
    }

    /** The memory half of save: the revision is derived over the edited state and written into
        root. */
    method StampRoot() returns (derived: string)
      requires Valid()
      modifies this`shape, Foot(shape)
      ensures Valid() && Foot(shape) <= old(Foot(shape)) && root == old(root) && state == old(state)
      ensures old(Stamp(sha, Tree())).Some? && Tree() == old(Stamp(sha, Tree())).value
      ensures StringOf(Tree(), "revision") == Some(derived)
    {
      ghost var before := Tree();
      StampCells(sha, before);
      derived := DeriveRevision();
      assert Tree() == before;
      ghost var cells, i := root.cells[..], FirstMember(before.members, "state");
      var ok;
      ghost var shape';
      ok, shape' := SetOrderedMember(root, "revision", derived, shape);
      assert ok;
      assert root.cells[..][i] == cells[i];
      shape := shape';
    }

    /** save: when the record nests too deeply to be indented nothing is written, but the revision
        in memory has already changed. */
    method Save(disk: Disk) returns (revision: Option<string>)
      requires Valid()
      modifies this`shape, Foot(shape), disk`files
      ensures Valid() && Foot(shape) <= old(Foot(shape)) && root == old(root) && state == old(state)
      ensures old(Stamp(sha, Tree())).Some? && Tree() == old(Stamp(sha, Tree())).value
      ensures revision.Some? <==> Height(Tree()) <= MAX_NESTING
      ensures revision.Some? ==> StringOf(Tree(), "revision") == revision
      ensures revision.Some? <==> FileText(Tree()).Some?
      ensures disk.files == if revision.Some? then old(disk.files)[path := FileText(Tree()).value] else old(disk.files)
    {
      SaveThenLoad(sha, Tree());
      var derived := StampRoot();
      revision := Write(disk, derived);
    }

    method IndentedText() returns (text: Option<string>)
      requires Valid()
      ensures Valid() && Tree() == old(Tree()) && text == FileText(Tree())
    {
      ghost var tree := Tree();
      FootAllocated(shape);
      var compact := EncodeOrdered(root, shape);
      assert Tree() == tree;
      text := Terminated(Indent(compact));
    }

    /** The file half of save. */
    method Write(disk: Disk, derived: string) returns (revision: Option<string>)
      requires Valid()
      modifies disk`files
      ensures Valid() && Tree() == old(Tree())
      ensures revision == if FileText(Tree()).Some? then Some(derived) else None
      ensures disk.files == if revision.Some? then old(disk.files)[path := FileText(Tree()).value] else old(disk.files)
    {
      var text := IndentedText();
      if text.None? { return None; }
      disk.files := disk.files[path := text.value];
      return Some(derived);
    }
  }

  /** loadStoreRecord. */
  method LoadStoreRecord(disk: Disk, path: string, sha: string -> string) returns (r: Option<LoadedRecord>)
    ensures r.Some? <==> path in disk.files && Load(sha, disk.files[path]).Some?
    ensures r.Some? ==> r.value.Valid() && fresh(r.value) && fresh(Foot(r.value.shape))
    ensures r.Some? ==> r.value.path == path && r.value.sha == sha
    ensures r.Some? ==> r.value.Tree() == Load(sha, disk.files[path]).value
  {
    if path !in disk.files { return None; }
    var payload := disk.files[path];
    var decoded := Decode(payload);
    if decoded.None? { return None; }
    var root;
    ghost var shape;
    root, shape := Allocate(decoded.value);
    FootAllocated(shape);
    var state;
    ghost var i;
    state, i := OrderedMember(root, "state", shape);
    if state.None? { return None; }
    if StringOf(decoded.value, "revision").None? { return None; }
    DecodedWellFormed(payload);
    assert Read(root, shape) == decoded.value;
    var record := new LoadedRecord.Decoded(path, sha, root, state.value, shape);
    var derived := record.DeriveRevision();
    if derived != StringOf(decoded.value, "revision").value { return None; }
    return Some(record);
  }
}
