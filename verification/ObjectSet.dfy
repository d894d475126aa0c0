/** The Set transaction as the code runs it, on Go objects: an old value is nil, the value of a leaf or a pointer to a
    struct, and writing a pointer back copies what its struct holds then. It is tied to the transaction on trees. */
module ObjectSet {
  import opened Text
  import opened PathText
  import opened Schema
  import opened DataTree
  import opened Transaction
  import opened Objects

  datatype Value = NoValue | LeafValue(text: string) | Pointer(n: nat)

  /** backupEntry */
  datatype Item = Item(optype: OpType, gpath: Path, value: Value, executed: bool)

  /** The objects, which of them is the root, the log, and whether an operation has failed. */
  datatype ObjSt = ObjSt(heap: Heap, root: nat, log: seq<Item>, failed: bool)

  /** WriteTypedValue on the objects. */
  type Writer = (Heap, nat, Path, Decoded) -> Heap

  /** What Get returns for the path. */
  function Fetch(h: Heap, r: nat, p: Path): Value {
    match Sees(h, [], r, p)
    case Some(Leaf(v)) => LeafValue(v)
    case _ =>
      var n := Leads(h, [], r, ToRoute(p));
      if n.None? then NoValue else Pointer(n.value)
  }

  function Changed(write: Writer, optype: OpType, h: Heap, r: nat, x: Target, nil: bool): (Heap, nat) {
    if nil || optype == UPDATE then (write(h, r, x.path, x.value), r)
    else if x.path == [] && optype == DELETE then (Poke(h, [], h.next, EMPTY, 1), h.next)
    else if !x.deletable then (h, r)
    else if x.path == [] then (write(h, r, x.path, x.value), r)
    else if optype == DELETE then (Remove(h, r, x.path), r)
    else (write(Remove(h, r, x.path), r, x.path, x.value), r)
  }

  /** One target of an operation. */
  function Take(root: Entry, write: Writer, optype: OpType, st: ObjSt, x: Target, value: Value, pushed: bool): ObjSt {
    if (!x.parsed && !value.NoValue?) || x.readOnly then st.(failed := true)
    else
      var done := WritesOk(root, optype, x, if value.NoValue? then Nil else Live) && pushed;
      var (h, r) := Changed(write, optype, st.heap, st.root, x, value.NoValue?);
      ObjSt(h, r, st.log + [Item(optype, x.path, value, done)], !done)
  }

  /** The targets and their values are those that Get found at the start, in the objects h under r. */
  function TakeTargets(root: Entry, write: Writer, optype: OpType, h: Heap, r: nat, st: ObjSt, targets: seq<Target>,
      pushed: seq<bool>): ObjSt
    requires |pushed| == |targets|
  {
    if targets == [] then st
    else
      var before := TakeTargets(root, write, optype, h, r, st, Init(targets), Init(pushed));
      if before.failed then before
      else Take(root, write, optype, before, Last(targets), Fetch(h, r, Last(targets).path), Last(pushed))
  }

  function TakeOp(root: Entry, write: Writer, st: ObjSt, op: Op): ObjSt
    requires WellFormed(op)
  {
    if op.targets == [] then
      if op.optype == DELETE then st else Take(root, write, op.optype, st, op.full, NoValue, op.pushedNew)
    else TakeTargets(root, write, op.optype, st.heap, st.root, st, op.targets, op.pushed)
  }

  function TakeOps(root: Entry, write: Writer, st: ObjSt, ops: seq<Op>): ObjSt
    requires forall op :: op in ops ==> WellFormed(op)
  {
    if ops == [] then st
    else
      var before := TakeOps(root, write, st, Init(ops));
      if before.failed then before else TakeOp(root, write, before, Last(ops))
  }

  /** Undoing one entry: DeleteValue or WriteValue. */
  function Revert(root: Entry, h: Heap, r: nat, b: Item): Heap {
    match b.value
    case NoValue => if Descend(root, Names(b.gpath)).None? || Refuses(root, b.gpath) then h else Remove(h, r, b.gpath)
    case LeafValue(v) => if b.gpath == [] then h else WriteLeaf(h, r, b.gpath, v)
    case Pointer(n) => WriteStruct(h, r, b.gpath, n)
  }

  /** SetRollback and SetDone, on the objects. */
  function RevertAll(root: Entry, h: Heap, r: nat, log: seq<Item>): Heap {
    if log == [] then h else Revert(root, RevertAll(root, h, r, Init(log)), r, Last(log))
  }

  // ---------------------------------------------------------------- what the parts that are not modelled do

  /** A node below a list entry comes with that entry, and only entries have keys. */
  ghost predicate Fits(p: Path, d: Decoded) {
    forall q :: q in d.cells && p <= q ==>
      && q != [] && (d.cells[q].ListEntry? <==> Last(q).keys != map[])
      && forall i :: |p| <= i < |q| - 1 ==> EntryThere(d.cells, q, i)
  }

  /** ytypes.Unmarshal and ytypes.SetNode write into the structs that are there, make those that are missing, and touch
      no others. */
  ghost predicate Writes(root: Entry, write: Writer) {
    forall h, r, p, d, t :: Sound(h) && ([], r) in h.objs && Shows(h, r, t) && Fits(p, d) ==>
      WroteInPlace(h, r, write(h, r, p, d), WriteTyped(root, t, p, d))
  }

  ghost predicate WroteInPlace(h: Heap, r: nat, g: Heap, u: Tree) {
    Shows(g, r, u) && Tame(h, r, g, r, [], r) && InPlace(h, r, g)
  }

  // ---------------------------------------------------------------- objects that stand for a log of the tree

  /** The struct n at p is out of the tree, and holds these cells. */
  ghost predicate Loose(h: Heap, r: nat, p: Path, n: nat, cells: Tree) {
    && (ToRoute(p), n) in h.objs && Separate(h, [], r, ToRoute(p), n)
    && forall q :: p <= q ==> Sees(h, ToRoute(p), n, q) == At(cells, q)
  }

  ghost predicate Mirror(h: Heap, r: nat, b: Backup, c: Item) {
    && c.optype == b.optype && c.gpath == b.gpath && c.executed == b.executed
    && match b.held
       case Nil => c.value.NoValue?
       case Snapshot(cells) =>
         if c.value.LeafValue? then LeafCells(b.gpath, c.value.text, cells)
         else c.value.Pointer? && Loose(h, r, b.gpath, c.value.n, cells)
       case Live => c.value.Pointer? && (ToRoute(b.gpath), c.value.n) in h.objs
  }

  ghost predicate LeafCells(p: Path, v: string, cells: Tree) {
    p != [] && Last(p).keys == map[] && SameBelow(cells, map[p := Leaf(v)], p)
  }

  /** No entry that is undone is at or above the i-th, but for an old struct of its own path from before. */
  ghost predicate KeepsPlace(root: Entry, log: seq<Backup>, i: nat)
    requires i < |log|
  {
    forall j :: 0 <= j < |log| && j != i && Undoes(root, log[j]) && log[j].gpath <= log[i].gpath ==>
      j < i && log[j].gpath == log[i].gpath && log[j].held.Snapshot? && !IsLeaf(log[j].held.cells, log[j].gpath)
  }

  /** The same when the first k entries have been undone and the others have not, except for those before the i-th. */
  ghost predicate KeepsFrom(root: Entry, log: seq<Backup>, i: nat, k: nat)
    requires i < |log|
  {
    forall j :: 0 <= j < |log| && (j < k || j > i) && j != i && Undoes(root, log[j]) && log[j].gpath <= log[i].gpath ==>
      j < i && log[j].gpath == log[i].gpath && log[j].held.Snapshot? && !IsLeaf(log[j].held.cells, log[j].gpath)
  }

  /** This entry holds a struct that is out of the tree. */
  predicate HasLoose(b: Backup, c: Item) {
    b.held.Snapshot? && c.value.Pointer?
  }

  ghost predicate ApartFrom(h: Heap, b: Route, n: nat, c: Item) {
    c.value.Pointer? ==> Separate(h, b, n, ToRoute(c.gpath), c.value.n)
  }

  ghost predicate InItsPlace(h: Heap, r: nat, c: Item) {
    c.value.Pointer? && Leads(h, [], r, ToRoute(c.gpath)) == Some(c.value.n)
  }

  /** From the k-th on the items stand for the entries of the log, and share no objects with each other. Updated structs
      are in their place, if nothing in the whole log has taken them out yet. */
  ghost predicate Kept(root: Entry, whole: seq<Backup>, h: Heap, r: nat, log: seq<Backup>, items: seq<Item>, k: nat) {
    && Sound(h) && ([], r) in h.objs && |log| == |items| && log <= whole
    && (forall i :: k <= i < |log| ==> Mirror(h, r, log[i], items[i]))
    && (forall i, j :: k <= i < j < |log| && HasLoose(log[i], items[i]) && HasLoose(log[j], items[j]) ==>
          Separate(h, ToRoute(items[i].gpath), items[i].value.n, ToRoute(items[j].gpath), items[j].value.n))
    && (forall i :: k <= i < |log| && log[i].held.Live? && KeepsFrom(root, whole, i, k) ==> InItsPlace(h, r, items[i]))
  }

  // ---------------------------------------------------------------- walking the log

  lemma SeparateBack(h: Heap, b: Route, n: nat, c: Route, k: nat)
    requires Separate(h, b, n, c, k)
    ensures Separate(h, c, k, b, n)
  {
    hide Leads;
  }

  /** What changes the tree in a tame way leaves a loose struct as it is. */
  lemma LooseKept(h: Heap, r: nat, g: Heap, s: nat, b: Route, n: nat, p: Path, k: nat, cells: Tree)
    requires Sound(h) && Tame(h, r, g, s, b, n) && Loose(h, r, p, k, cells) && Separate(h, b, n, ToRoute(p), k)
    ensures Loose(g, s, p, k, cells)
    ensures forall v :: Leads(g, ToRoute(p), k, v) == Leads(h, ToRoute(p), k, v)
  {
    hide Leads, Sees, Sound, Tame, Separate;
    TameKeeps(h, r, g, s, b, n, ToRoute(p), k);
  }

  lemma MirrorKept(h: Heap, r: nat, g: Heap, s: nat, b: Route, n: nat, e: Backup, c: Item)
    requires Sound(h) && Tame(h, r, g, s, b, n) && Mirror(h, r, e, c)
    requires HasLoose(e, c) ==> Separate(h, b, n, ToRoute(c.gpath), c.value.n)
    ensures Mirror(g, s, e, c)
    ensures HasLoose(e, c) ==> forall v :: Leads(g, ToRoute(c.gpath), c.value.n, v) == Leads(h, ToRoute(c.gpath), c.value.n, v)
  {
    hide Leads, Sees, Sound, Separate, Loose;
    if HasLoose(e, c) {
      LooseKept(h, r, g, s, b, n, e.gpath, c.value.n, e.held.cells);
    }
  }

  /** A tame change keeps the rest of the log, if structs that keep their place are still in it. */
  lemma KeptTame(root: Entry, whole: seq<Backup>, h: Heap, r: nat, g: Heap, s: nat, b: Route, n: nat, log: seq<Backup>, items: seq<Item>, k: nat)
    requires Kept(root, whole, h, r, log, items, k) && Tame(h, r, g, s, b, n)
    requires forall i :: k <= i < |log| && HasLoose(log[i], items[i])
               ==> ApartFrom(h, b, n, items[i])
    requires forall i :: k <= i < |log| && log[i].held.Live? && KeepsFrom(root, whole, i, k) ==> InItsPlace(g, s, items[i])
    ensures Kept(root, whole, g, s, log, items, k)
  {
    hide Leads, Sees, Separate, Loose, KeepsFrom, Undoes;
    forall i | k <= i < |log|
      ensures Mirror(g, s, log[i], items[i])
      ensures HasLoose(log[i], items[i])
              ==> forall v :: Leads(g, ToRoute(items[i].gpath), items[i].value.n, v) == Leads(h, ToRoute(items[i].gpath), items[i].value.n, v)
    {
      MirrorKept(h, r, g, s, b, n, log[i], items[i]);
    }
    forall i, j | k <= i < j < |log| && HasLoose(log[i], items[i]) && HasLoose(log[j], items[j])
      ensures Separate(g, ToRoute(items[i].gpath), items[i].value.n, ToRoute(items[j].gpath), items[j].value.n)
    {
      SeparateSame(h, g, ToRoute(items[i].gpath), items[i].value.n, ToRoute(items[j].gpath), items[j].value.n);
    }
    TameParts(h, r, g, s, b, n);
  }

  lemma SeparateSame(h: Heap, g: Heap, b: Route, n: nat, c: Route, k: nat)
    requires Separate(h, b, n, c, k)
    requires forall v :: Leads(g, b, n, v) == Leads(h, b, n, v)
    requires forall v :: Leads(g, c, k, v) == Leads(h, c, k, v)
    ensures Separate(g, b, n, c, k)
  {
    hide Leads;
  }

  lemma KeptLess(root: Entry, whole: seq<Backup>, h: Heap, r: nat, log: seq<Backup>, items: seq<Item>, k: nat)
    requires Kept(root, whole, h, r, log, items, k)
    ensures Kept(root, whole, h, r, log, items, k + 1)
  {
    hide Mirror, Separate, InItsPlace, Undoes, HasLoose;
  }

  lemma KeptParts(root: Entry, whole: seq<Backup>, h: Heap, r: nat, log: seq<Backup>, items: seq<Item>, k: nat)
    requires Kept(root, whole, h, r, log, items, k)
    ensures Sound(h) && ([], r) in h.objs && |log| == |items| && log <= whole
    ensures k < |log| ==> Mirror(h, r, log[k], items[k])
    ensures k < |log| && log[k].held.Live? && KeepsFrom(root, whole, k, k) ==> InItsPlace(h, r, items[k])
    ensures forall i :: k <= i < |log| && HasLoose(log[i], items[i]) ==> ApartFrom(h, [], r, items[i])
  {
    hide Separate, Sees, Leads, InItsPlace, KeepsFrom;
  }

  /** Whom undoing the k-th entry does not put anything at or above of. */
  lemma PlaceKept(root: Entry, log: seq<Backup>, k: nat, i: nat)
    requires k < i < |log| && KeepsFrom(root, log, i, k + 1) && Undoes(root, log[k])
    ensures ToRoute(log[k].gpath) <= ToRoute(log[i].gpath)
            ==> log[k].gpath == log[i].gpath && log[k].held.Snapshot? && !IsLeaf(log[k].held.cells, log[k].gpath)
  {
    RouteBelow(log[k].gpath, log[i].gpath);
  }

  /** The tree takes over nothing but what the item points to, if that is out of the tree. */
  ghost predicate RevertTame(h: Heap, r: nat, g: Heap, b: Backup, c: Item) {
    if HasLoose(b, c) then Tame(h, r, g, r, ToRoute(c.gpath), c.value.n) else Tame(h, r, g, r, [], r)
  }

  lemma RevertTameIs(h: Heap, r: nat, g: Heap, b: Backup, c: Item)
    requires if HasLoose(b, c) then c.value.Pointer? && Tame(h, r, g, r, ToRoute(c.gpath), c.value.n)
             else Tame(h, r, g, r, [], r)
    ensures RevertTame(h, r, g, b, c)
  {
  }

  /** Undoing the k-th entry on the objects is undoing it on the tree, as long as an updated struct is in its place. */
  lemma RevertKeeps(root: Entry, h: Heap, r: nat, t: Tree, log: seq<Backup>, items: seq<Item>, k: nat)
    requires k < |log| && Kept(root, log, h, r, log, items, k) && Shows(h, r, t)
    requires log[k].held.Live? ==> KeepsPlace(root, log, k)
    ensures var g := Revert(root, h, r, items[k]);
            Shows(g, r, Undo(root, t, log[k])) && Kept(root, log, g, r, log, items, k + 1) && RevertTame(h, r, g, log[k], items[k])
  {
    hide *;
    KeptParts(root, log, h, r, log, items, k);
    KeptLess(root, log, h, r, log, items, k);
    RevertIs(root, h, r, t, log[k], items[k]);
    KeepsAll(root, log, k);
    match log[k].held {
      case Nil => RevertNil(root, h, r, t, log, items, k);
      case Snapshot(_) =>
        if items[k].value.LeafValue? {
          RevertLeaf(root, h, r, t, log, items, k);
        } else {
          RevertLoose(root, h, r, t, log, items, k);
        }
      case Live =>
        TameItself(h, r);
        RevertTameIs(h, r, h, log[k], items[k]);
    }
  }

  lemma KeepsAll(root: Entry, log: seq<Backup>, k: nat)
    requires k < |log|
    ensures KeepsPlace(root, log, k) ==> KeepsFrom(root, log, k, k)
  {
    hide Undoes, IsLeaf;
  }

  /** What undoing does, case by case. */
  lemma RevertIs(root: Entry, h: Heap, r: nat, t: Tree, b: Backup, c: Item)
    requires Mirror(h, r, b, c)
    ensures HasLoose(b, c) <==> b.held.Snapshot? && !c.value.LeafValue?
    ensures b.held.Nil? ==>
              && c.value.NoValue? && c.gpath == b.gpath && (Undoes(root, b) ==> b.gpath != [])
              && Revert(root, h, r, c) == (if Undoes(root, b) then Remove(h, r, b.gpath) else h)
              && Undo(root, t, b) == (if Undoes(root, b) then Delete(t, b.gpath) else t)
    ensures b.held.Snapshot? ==> Undoes(root, b) && Undo(root, t, b) == WriteValue(t, b.gpath, b.held.cells)
    ensures b.held.Snapshot? && c.value.LeafValue? ==>
              && c.gpath == b.gpath && LeafCells(b.gpath, c.value.text, b.held.cells)
              && Revert(root, h, r, c) == WriteLeaf(h, r, b.gpath, c.value.text)
    ensures b.held.Snapshot? && !c.value.LeafValue? ==>
              && c.value.Pointer? && c.gpath == b.gpath && HasLoose(b, c) && Loose(h, r, b.gpath, c.value.n, b.held.cells)
              && Revert(root, h, r, c) == WriteStruct(h, r, b.gpath, c.value.n)
    ensures b.held.Live? ==> Undo(root, t, b) == t && (InItsPlace(h, r, c) ==> Revert(root, h, r, c) == h)
  {
    hide Remove, WriteLeaf, Leads, Loose, Separate;
    if b.held.Live? && InItsPlace(h, r, c) {
      WriteStructIs(h, r, c.gpath, c.value.n);
    }
  }

  lemma RevertNil(root: Entry, h: Heap, r: nat, t: Tree, log: seq<Backup>, items: seq<Item>, k: nat)
    requires k < |log| == |items| && Kept(root, log, h, r, log, items, k + 1) && Shows(h, r, t) && log[k].held.Nil?
    requires Mirror(h, r, log[k], items[k])
    ensures var g := Revert(root, h, r, items[k]);
            Shows(g, r, Undo(root, t, log[k])) && Kept(root, log, g, r, log, items, k + 1) && RevertTame(h, r, g, log[k], items[k])
  {
    hide *;
    RevertIs(root, h, r, t, log[k], items[k]);
    KeptParts(root, log, h, r, log, items, k + 1);
    TameItself(h, r);
    RevertTameIs(h, r, h, log[k], items[k]);
    if Undoes(root, log[k]) {
      var p := log[k].gpath;
      RemoveTree(h, r, p);
      RevertTameIs(h, r, Remove(h, r, p), log[k], items[k]);
      RemoveShows(h, r, p, t);
      forall i | k < i < |log| && log[i].held.Live? && KeepsFrom(root, log, i, k + 1)
        ensures InItsPlace(Remove(h, r, p), r, items[i])
      {
        StandsAt(root, h, r, log, items, k + 1, i);
        PlaceKept(root, log, k, i);
        RemoveLeads(h, r, p, ToRoute(log[i].gpath));
        StandsStill(h, r, Remove(h, r, p), r, items[i]);
      }
      KeptTame(root, log, h, r, Remove(h, r, p), r, [], r, log, items, k + 1);
    }
  }

  lemma RemoveShows(h: Heap, r: nat, p: Path, t: Tree)
    requires Shows(h, r, t) && p != []
    ensures Shows(Remove(h, r, p), r, Delete(t, p))
  {
    RemoveSees(h, r, p);
    hide Sees, Remove;
    forall q
      ensures Sees(Remove(h, r, p), [], r, q) == At(Delete(t, p), q)
    {
      assert Sees(h, [], r, q) == At(t, q);
      DeleteAt(t, p, q);
    }
  }

  lemma StandsAt(root: Entry, h: Heap, r: nat, log: seq<Backup>, items: seq<Item>, k: nat, i: nat)
    requires Kept(root, log, h, r, log, items, k) && k <= i < |log| && log[i].held.Live? && KeepsFrom(root, log, i, k)
    ensures InItsPlace(h, r, items[i]) && items[i].gpath == log[i].gpath && items[i].value.Pointer?
    ensures Leads(h, [], r, ToRoute(log[i].gpath)).Some?
  {
    hide Leads, Separate, Sees, KeepsFrom;
    assert Mirror(h, r, log[i], items[i]);
  }

  lemma StandsStill(h: Heap, r: nat, g: Heap, s: nat, c: Item)
    requires InItsPlace(h, r, c) && Leads(g, [], s, ToRoute(c.gpath)) == Leads(h, [], r, ToRoute(c.gpath))
    ensures InItsPlace(g, s, c)
  {
  }

  lemma RevertLeaf(root: Entry, h: Heap, r: nat, t: Tree, log: seq<Backup>, items: seq<Item>, k: nat)
    requires k < |log| == |items| && Kept(root, log, h, r, log, items, k + 1) && Shows(h, r, t)
    requires log[k].held.Snapshot? && items[k].value.LeafValue? && Mirror(h, r, log[k], items[k])
    ensures var g := Revert(root, h, r, items[k]);
            Shows(g, r, Undo(root, t, log[k])) && Kept(root, log, g, r, log, items, k + 1) && RevertTame(h, r, g, log[k], items[k])
  {
    hide *;
    RevertIs(root, h, r, t, log[k], items[k]);
    KeptParts(root, log, h, r, log, items, k + 1);
    var p, v, cells := log[k].gpath, items[k].value.text, log[k].held.cells;
    LeafCellsAre(p, v, cells);
    WriteLeafSees(h, r, p, v, t);
    WriteSame(t, p, cells, map[p := Leaf(v)]);
    forall i | k < i < |log| && log[i].held.Live? && KeepsFrom(root, log, i, k + 1)
      ensures InItsPlace(WriteLeaf(h, r, p, v), r, items[i])
    {
      StandsAt(root, h, r, log, items, k + 1, i);
      PlaceKept(root, log, k, i);
      WriteLeafLeads(h, r, p, v, ToRoute(log[i].gpath));
      StandsStill(h, r, WriteLeaf(h, r, p, v), r, items[i]);
    }
    KeptTame(root, log, h, r, WriteLeaf(h, r, p, v), r, [], r, log, items, k + 1);
    RevertTameIs(h, r, WriteLeaf(h, r, p, v), log[k], items[k]);
  }

  lemma LeafCellsAre(p: Path, v: string, cells: Tree)
    requires LeafCells(p, v, cells)
    ensures p != [] && Last(p).keys == map[] && SameBelow(cells, map[p := Leaf(v)], p) && IsLeaf(cells, p)
  {
    assert At(cells, p) == At(map[p := Leaf(v)], p);
  }

  lemma WriteSame(t: Tree, p: Path, a: Tree, b: Tree)
    requires SameBelow(a, b, p)
    ensures WriteValue(t, p, a) == WriteValue(t, p, b)
  {
    forall q
      ensures At(WriteValue(t, p, a), q) == At(WriteValue(t, p, b), q)
    {
      PutAt(Create(t, p), p, a, q);
      PutAt(Create(t, p), p, b, q);
      hide Create;
    }
    SameMap(WriteValue(t, p, a), WriteValue(t, p, b));
  }

  lemma RevertLoose(root: Entry, h: Heap, r: nat, t: Tree, log: seq<Backup>, items: seq<Item>, k: nat)
    requires k < |log| && Kept(root, log, h, r, log, items, k) && Shows(h, r, t)
    requires log[k].held.Snapshot? && !items[k].value.LeafValue?
    ensures var g := Revert(root, h, r, items[k]);
            Shows(g, r, Undo(root, t, log[k])) && Kept(root, log, g, r, log, items, k + 1) && RevertTame(h, r, g, log[k], items[k])
  {
    hide *;
    KeptParts(root, log, h, r, log, items, k);
    KeptLess(root, log, h, r, log, items, k);
    RevertIs(root, h, r, t, log[k], items[k]);
    var p, n, cells := log[k].gpath, items[k].value.n, log[k].held.cells;
    var w, g := ToRoute(p), WriteStruct(h, r, p, n);
    LooseParts(h, r, p, n, cells);
    WriteStructShows(h, r, p, n, t);
    TreeAt(h, w, n);
    LooseCells(h, r, p, n, cells);
    WriteSame(t, p, cells, TreeFrom(h, w, n));
    forall i | k < i < |log| && log[i].held.Live? && KeepsFrom(root, log, i, k + 1)
      ensures InItsPlace(g, r, items[i])
    {
      StandsAt(root, h, r, log, items, k + 1, i);
      PlaceKept(root, log, k, i);
      WriteStructLeads(h, r, p, n, ToRoute(log[i].gpath));
      StandsStill(h, r, g, r, items[i]);
    }
    forall i | k < i < |log| && HasLoose(log[i], items[i])
      ensures ApartFrom(h, w, n, items[i])
    {
      PairApart(root, h, r, log, items, k, i);
    }
    KeptTame(root, log, h, r, g, r, w, n, log, items, k + 1);
    RevertTameIs(h, r, g, log[k], items[k]);
  }

  lemma PairApart(root: Entry, h: Heap, r: nat, log: seq<Backup>, items: seq<Item>, k: nat, i: nat)
    requires Kept(root, log, h, r, log, items, k) && k < i < |log| && HasLoose(log[k], items[k]) && HasLoose(log[i], items[i])
    ensures items[k].value.Pointer? && ApartFrom(h, ToRoute(items[k].gpath), items[k].value.n, items[i])
  {
  }

  lemma LooseParts(h: Heap, r: nat, p: Path, n: nat, cells: Tree)
    requires Loose(h, r, p, n, cells)
    ensures (ToRoute(p), n) in h.objs && Separate(h, [], r, ToRoute(p), n) && Leads(h, [], r, ToRoute(p)) != Some(n)
  {
    assert Leads(h, ToRoute(p), n, ToRoute(p)) == Some(n);
  }

  lemma LooseCells(h: Heap, r: nat, p: Path, n: nat, cells: Tree)
    requires Loose(h, r, p, n, cells)
    requires forall q :: At(TreeFrom(h, ToRoute(p), n), q) == Sees(h, ToRoute(p), n, q)
    ensures SameBelow(cells, TreeFrom(h, ToRoute(p), n), p)
  {
    hide Sees, TreeFrom;
  }

  /** All updated structs keep their place. */
  ghost predicate AllKeepPlace(root: Entry, log: seq<Backup>) {
    forall i :: 0 <= i < |log| && log[i].held.Live? ==> KeepsPlace(root, log, i)
  }

  lemma {:induction false} RevertUpTo(root: Entry, h: Heap, r: nat, t: Tree, log: seq<Backup>, items: seq<Item>, k: nat)
    requires k <= |log| && Kept(root, log, h, r, log, items, 0) && Shows(h, r, t) && AllKeepPlace(root, log)
    ensures |items| == |log|
    ensures var g := RevertAll(root, h, r, items[..k]);
            Shows(g, r, UndoAll(root, t, log[..k])) && Kept(root, log, g, r, log, items, k)
  {
    hide *;
    KeptParts(root, log, h, r, log, items, 0);
    if k == 0 {
      RevertNone(root, h, r, t);
      assert log[..0] == [] && items[..0] == [];
    } else {
      RevertUpTo(root, h, r, t, log, items, k - 1);
      var g, u := RevertAll(root, h, r, items[..k - 1]), UndoAll(root, t, log[..k - 1]);
      KeepPlaceAt(root, log, k - 1);
      RevertKeeps(root, g, r, u, log, items, k - 1);
      assert log[..k] == log[..k - 1] + [log[k - 1]] && items[..k] == items[..k - 1] + [items[k - 1]];
      UndoSnoc(root, t, log[..k - 1], log[k - 1]);
      RevertSnoc(root, h, r, items[..k - 1], items[k - 1]);
    }
  }

  lemma RevertNone(root: Entry, h: Heap, r: nat, t: Tree)
    ensures RevertAll(root, h, r, []) == h && UndoAll(root, t, []) == t
  {
  }

  lemma KeepPlaceAt(root: Entry, log: seq<Backup>, i: nat)
    requires AllKeepPlace(root, log) && i < |log|
    ensures log[i].held.Live? ==> KeepsPlace(root, log, i)
  {
  }

  lemma RevertSnoc(root: Entry, h: Heap, r: nat, log: seq<Item>, b: Item)
    ensures RevertAll(root, h, r, log + [b]) == Revert(root, RevertAll(root, h, r, log), r, b)
  {
    assert Init(log + [b]) == log;
  }

  /** Walking the log on the objects does what walking it on the tree does, if updated structs keep their place. */
  lemma RevertRefines(root: Entry, h: Heap, r: nat, t: Tree, log: seq<Backup>, items: seq<Item>)
    requires Kept(root, log, h, r, log, items, 0) && Shows(h, r, t) && AllKeepPlace(root, log)
    ensures var g := RevertAll(root, h, r, items);
            Shows(g, r, UndoAll(root, t, log)) && Sound(g) && ([], r) in g.objs
  {
    hide *;
    RevertUpTo(root, h, r, t, log, items, |log|);
    KeptParts(root, log, RevertAll(root, h, r, items[..|log|]), r, log, items, |log|);
    assert log[..|log|] == log && items[..|log|] == items;
  }
}
