/** What rolling a request back yields on the objects, also when an updated container has lost its place by then: its
    struct has the updated content, and that is written back. */
module ObjectRollback {
  import opened Text
  import opened PathText
  import opened Schema
  import opened DataTree
  import opened Transaction
  import opened Rollback
  import opened Objects
  import opened ObjectSet
  import opened ObjectRun

  // ---------------------------------------------------------------- updated structs that lose their place

  /** An updated struct that an earlier entry puts out of its place. */
  ghost predicate Displaced(root: Entry, log: seq<Backup>, j: nat)
    requires j < |log|
  {
    log[j].held.Live? && !KeepsPlace(root, log, j)
  }

  /** No later entry takes it out. Before it is put out of its place nothing at or below it is undone, and while it is out
      only old values are, until an earlier entry for the same container has brought it back; entries for updated
      containers below it there are none. */
  ghost predicate Alone(root: Entry, log: seq<Backup>, j: nat)
    requires j < |log|
  {
    && KeepsFrom(root, log, j, 0)
    && forall k :: 0 <= k < |log| && k != j && log[j].gpath <= log[k].gpath ==> MayTouch(root, log, j, k)
  }

  /** The k-th entry is at or below the j-th. */
  ghost predicate MayTouch(root: Entry, log: seq<Backup>, j: nat, k: nat)
    requires j < |log| && k < |log|
  {
    if log[k].held.Live? then log[k].gpath == log[j].gpath
    else k > j || (log[k].gpath == log[j].gpath && log[k].held.Nil?) || (OutBy(root, log, j, k) && !BackBy(log, j, k))
  }

  /** Of the first k entries some has written the container of the j-th back. */
  ghost predicate BackBy(log: seq<Backup>, j: nat, k: nat)
    requires j < |log|
  {
    exists i :: 0 <= i < k && i < j && log[i].held.Live? && log[i].gpath == log[j].gpath
  }

  ghost predicate Settled(root: Entry, t: Tree, log: seq<Backup>) {
    forall j :: 0 <= j < |log| && Displaced(root, log, j) ==> Alone(root, log, j) && !IsLeaf(t, log[j].gpath)
  }

  /** The entry as it works: a struct out of its place has what the tree has there when the walk begins. */
  ghost function Frozen(root: Entry, t: Tree, log: seq<Backup>): (f: seq<Backup>)
    ensures |f| == |log|
    ensures forall i :: 0 <= i < |f| ==>
              f[i] == if Displaced(root, log, i) then log[i].(held := Snapshot(Sub(t, log[i].gpath))) else log[i]
  {
    seq(|log|, i requires 0 <= i < |log| =>
      if Displaced(root, log, i) then log[i].(held := Snapshot(Sub(t, log[i].gpath))) else log[i])
  }

  /** Of the first k entries some has put the j-th out of its place. */
  ghost predicate OutBy(root: Entry, log: seq<Backup>, j: nat, k: nat)
    requires j < |log|
  {
    exists i :: 0 <= i < k && i < j && PutsOut(root, log[i], log[j])
  }

  predicate PutsOut(root: Entry, b: Backup, e: Backup) {
    && Undoes(root, b) && b.gpath <= e.gpath
    && !(b.gpath == e.gpath && b.held.Snapshot? && !IsLeaf(b.held.cells, b.gpath))
  }

  ghost predicate OutOf(h: Heap, r: nat, c: Item) {
    c.value.Pointer? && Leads(h, [], r, ToRoute(c.gpath)) != Some(c.value.n)
  }

  /** The struct that the item points to still has what the tree had there. */
  ghost predicate Keeps(h: Heap, t: Tree, c: Item) {
    && c.value.Pointer? && (ToRoute(c.gpath), c.value.n) in h.objs
    && forall q :: c.gpath <= q ==> Sees(h, ToRoute(c.gpath), c.value.n, q) == At(t, q)
  }

  /** Out of the tree, and until it is brought back the tree has nothing of it. */
  ghost predicate OutThere(h: Heap, r: nat, c: Item, back: bool) {
    OutOf(h, r, c) && (!back ==> c.value.Pointer? && Separate(h, [], r, ToRoute(c.gpath), c.value.n))
  }

  ghost predicate Waiting(root: Entry, h: Heap, r: nat, t: Tree, log: seq<Backup>, items: seq<Item>, k: nat, j: nat)
    requires j < |log| == |items|
  {
    && Keeps(h, t, items[j]) && (OutBy(root, log, j, k) ==> OutThere(h, r, items[j], BackBy(log, j, k)))
    && items[j].gpath == log[j].gpath
    && forall i :: k <= i < |log| && HasLoose(log[i], items[i]) ==> ApartFrom(h, ToRoute(items[j].gpath), items[j].value.n, items[i])
  }

  /** All displaced entries from the k-th on. */
  ghost predicate AllWait(root: Entry, h: Heap, r: nat, t: Tree, log: seq<Backup>, items: seq<Item>, k: nat)
    requires |log| == |items|
  {
    forall j :: k <= j < |log| && Displaced(root, log, j) ==> Waiting(root, h, r, t, log, items, k, j)
  }

  lemma WaitAtFirst(root: Entry, h: Heap, r: nat, t: Tree, log: seq<Backup>, items: seq<Item>)
    requires Kept(root, log, h, r, log, items, 0) && Shows(h, r, t) && Settled(root, t, log)
    ensures |log| == |items| && AllWait(root, h, r, t, log, items, 0)
  {
    hide *;
    KeptParts(root, log, h, r, log, items, 0);
    forall j | 0 <= j < |log| && Displaced(root, log, j)
      ensures Waiting(root, h, r, t, log, items, 0, j)
    {
      SettledAt(root, t, log, j);
      StandsAt(root, h, r, log, items, 0, j);
      PlaceOf(h, r, items[j]);
      var p, n := items[j].gpath, items[j].value.n;
      LeadsInside(h, [], r, ToRoute(p));
      SeenBelow(h, r, p, n);
      NotLeafSeenAt(h, r, t, p);
      ShowsAt(h, r, t);
      KeepsIf(h, t, items[j]);
      forall i | 0 <= i < |log| && HasLoose(log[i], items[i])
        ensures ApartFrom(h, ToRoute(p), n, items[i])
      {
        ApartBelow(h, r, p, n, items[i]);
      }
      NotOutYet(root, log, j);
      WaitingIf(root, h, r, t, log, items, 0, j);
    }
    AllWaitIf(root, h, r, t, log, items, 0);
  }

  lemma NotOutYet(root: Entry, log: seq<Backup>, j: nat)
    requires j < |log|
    ensures !OutBy(root, log, j, 0)
  {
  }

  lemma SettledAt(root: Entry, t: Tree, log: seq<Backup>, j: nat)
    requires Settled(root, t, log) && j < |log| && Displaced(root, log, j)
    ensures Alone(root, log, j) && KeepsFrom(root, log, j, 0) && !IsLeaf(t, log[j].gpath) && log[j].held.Live?
    ensures !KeepsPlace(root, log, j)
  {
  }

  lemma PlaceOf(h: Heap, r: nat, c: Item)
    requires InItsPlace(h, r, c)
    ensures c.value.Pointer? && Leads(h, [], r, ToRoute(c.gpath)) == Some(c.value.n)
  {
  }

  lemma NotLeafSeenAt(h: Heap, r: nat, t: Tree, p: Path)
    requires Shows(h, r, t) && !IsLeaf(t, p)
    ensures p == [] || Last(p).keys != map[] || Sees(h, [], r, p) == None
  {
    if p != [] {
      NotLeafSeen(h, r, t, p);
    }
  }

  lemma KeepsIf(h: Heap, t: Tree, c: Item)
    requires c.value.Pointer? && (ToRoute(c.gpath), c.value.n) in h.objs
    requires forall q :: c.gpath <= q ==> Sees(h, ToRoute(c.gpath), c.value.n, q) == At(t, q)
    ensures Keeps(h, t, c)
  {
  }

  lemma ApartBelow(h: Heap, r: nat, p: Path, n: nat, c: Item)
    requires Leads(h, [], r, ToRoute(p)) == Some(n) && ApartFrom(h, [], r, c)
    requires forall v :: ToRoute(p) <= v ==> Leads(h, ToRoute(p), n, v) == Leads(h, [], r, v)
    ensures ApartFrom(h, ToRoute(p), n, c)
  {
    if c.value.Pointer? {
      forall v | Leads(h, ToRoute(p), n, v).Some?
        ensures Leads(h, ToRoute(p), n, v) != Leads(h, ToRoute(c.gpath), c.value.n, v)
      {
        LeadsBelow(h, ToRoute(p), n, v);
        hide Leads;
      }
    }
  }

  lemma WaitingIf(root: Entry, h: Heap, r: nat, t: Tree, log: seq<Backup>, items: seq<Item>, k: nat, j: nat)
    requires j < |log| == |items| && Keeps(h, t, items[j]) && items[j].value.Pointer? && items[j].gpath == log[j].gpath
    requires OutBy(root, log, j, k) ==> OutThere(h, r, items[j], BackBy(log, j, k))
    requires forall i :: k <= i < |log| && HasLoose(log[i], items[i]) ==> ApartFrom(h, ToRoute(items[j].gpath), items[j].value.n, items[i])
    ensures Waiting(root, h, r, t, log, items, k, j)
  {
    hide Keeps, OutBy, OutThere, BackBy, ApartFrom, HasLoose;
  }

  lemma AllWaitIf(root: Entry, h: Heap, r: nat, t: Tree, log: seq<Backup>, items: seq<Item>, k: nat)
    requires |log| == |items| && forall j :: k <= j < |log| && Displaced(root, log, j) ==> Waiting(root, h, r, t, log, items, k, j)
    ensures AllWait(root, h, r, t, log, items, k)
  {
    hide Displaced, Waiting;
  }

  // ---------------------------------------------------------------- one step of the walk

  lemma WaitingParts(root: Entry, h: Heap, r: nat, t: Tree, log: seq<Backup>, items: seq<Item>, k: nat, j: nat)
    requires |log| == |items| && AllWait(root, h, r, t, log, items, k) && k <= j < |log| && Displaced(root, log, j)
    ensures items[j].value.Pointer? && items[j].gpath == log[j].gpath && (ToRoute(items[j].gpath), items[j].value.n) in h.objs
    ensures Keeps(h, t, items[j])
    ensures OutBy(root, log, j, k) ==>
              && Leads(h, [], r, ToRoute(items[j].gpath)) != Some(items[j].value.n)
              && (!BackBy(log, j, k) ==> Separate(h, [], r, ToRoute(items[j].gpath), items[j].value.n))
    ensures forall i :: k <= i < |log| && HasLoose(log[i], items[i]) ==> ApartFrom(h, ToRoute(items[j].gpath), items[j].value.n, items[i])
  {
    hide Displaced, Sees, Leads, Separate, OutBy, BackBy;
    assert Waiting(root, h, r, t, log, items, k, j);
  }

  /** The step changes nothing that is seen from the struct, and leaves it where it has to be. */
  ghost predicate LeftAlone(root: Entry, h: Heap, g: Heap, r: nat, log: seq<Backup>, items: seq<Item>, k: nat, j: nat)
    requires j < |log| == |items|
  {
    && items[j].value.Pointer?
    && (forall v :: Leads(g, ToRoute(items[j].gpath), items[j].value.n, v) == Leads(h, ToRoute(items[j].gpath), items[j].value.n, v))
    && (forall q :: Sees(g, ToRoute(items[j].gpath), items[j].value.n, q) == Sees(h, ToRoute(items[j].gpath), items[j].value.n, q))
    && (OutBy(root, log, j, k + 1) ==> OutThere(g, r, items[j], BackBy(log, j, k + 1)))
  }

  lemma LeftAloneParts(root: Entry, h: Heap, g: Heap, r: nat, log: seq<Backup>, items: seq<Item>, k: nat, j: nat)
    requires j < |log| == |items| && LeftAlone(root, h, g, r, log, items, k, j)
    ensures items[j].value.Pointer?
    ensures forall v :: Leads(g, ToRoute(items[j].gpath), items[j].value.n, v) == Leads(h, ToRoute(items[j].gpath), items[j].value.n, v)
    ensures forall q :: Sees(g, ToRoute(items[j].gpath), items[j].value.n, q) == Sees(h, ToRoute(items[j].gpath), items[j].value.n, q)
    ensures OutBy(root, log, j, k + 1) ==> OutThere(g, r, items[j], BackBy(log, j, k + 1))
  {
  }

  lemma LeftAloneIf(root: Entry, h: Heap, g: Heap, r: nat, log: seq<Backup>, items: seq<Item>, k: nat, j: nat)
    requires j < |log| == |items| && items[j].value.Pointer?
    requires forall v :: Leads(g, ToRoute(items[j].gpath), items[j].value.n, v) == Leads(h, ToRoute(items[j].gpath), items[j].value.n, v)
    requires forall q :: Sees(g, ToRoute(items[j].gpath), items[j].value.n, q) == Sees(h, ToRoute(items[j].gpath), items[j].value.n, q)
    requires OutBy(root, log, j, k + 1) ==> OutThere(g, r, items[j], BackBy(log, j, k + 1))
    ensures LeftAlone(root, h, g, r, log, items, k, j)
  {
  }

  /** What comes later waits on, if the step leaves it alone. */
  lemma WaitMore(root: Entry, h: Heap, r: nat, g: Heap, b: Route, n: nat, t: Tree, log: seq<Backup>, items: seq<Item>, k: nat)
    requires Kept(root, log, h, r, log, items, k) && k < |log| && AllWait(root, h, r, t, log, items, k)
    requires Tame(h, r, g, r, b, n)
    requires forall i :: k < i < |log| && HasLoose(log[i], items[i]) ==> ApartFrom(h, b, n, items[i])
    requires forall j :: k < j < |log| && Displaced(root, log, j) ==> LeftAlone(root, h, g, r, log, items, k, j)
    ensures AllWait(root, g, r, t, log, items, k + 1)
  {
    hide *;
    KeptParts(root, log, h, r, log, items, k);
    TameParts(h, r, g, r, b, n);
    forall j | k + 1 <= j < |log| && Displaced(root, log, j)
      ensures Waiting(root, g, r, t, log, items, k + 1, j)
    {
      WaitingParts(root, h, r, t, log, items, k, j);
      LeftAloneParts(root, h, g, r, log, items, k, j);
      var w, m := ToRoute(items[j].gpath), items[j].value.n;
      KeepsOn(h, g, t, items[j]);
      forall i | k + 1 <= i < |log| && HasLoose(log[i], items[i])
        ensures ApartFrom(g, w, m, items[i])
      {
        LooseStill(root, h, r, g, b, n, log, items, k, i);
        ApartStill(h, g, w, m, items[i]);
      }
      WaitingIf(root, g, r, t, log, items, k + 1, j);
    }
    AllWaitIf(root, g, r, t, log, items, k + 1);
  }

  lemma KeepsOn(h: Heap, g: Heap, t: Tree, c: Item)
    requires Keeps(h, t, c) && (ToRoute(c.gpath), c.value.n) in g.objs
    requires forall q :: Sees(g, ToRoute(c.gpath), c.value.n, q) == Sees(h, ToRoute(c.gpath), c.value.n, q)
    ensures Keeps(g, t, c)
  {
    hide Sees;
  }

  lemma LooseStill(root: Entry, h: Heap, r: nat, g: Heap, b: Route, n: nat, log: seq<Backup>, items: seq<Item>, k: nat, i: nat)
    requires Kept(root, log, h, r, log, items, k) && k <= i < |log| && HasLoose(log[i], items[i])
    requires Tame(h, r, g, r, b, n) && ApartFrom(h, b, n, items[i])
    ensures items[i].value.Pointer?
    ensures forall v :: Leads(g, ToRoute(items[i].gpath), items[i].value.n, v) == Leads(h, ToRoute(items[i].gpath), items[i].value.n, v)
  {
    hide Leads, Sees, Sound, Separate, Loose, KeepsFrom, Tame;
    assert Mirror(h, r, log[i], items[i]);
    MirrorKept(h, r, g, r, b, n, log[i], items[i]);
  }

  lemma ApartStill(h: Heap, g: Heap, w: Route, m: nat, c: Item)
    requires ApartFrom(h, w, m, c) && c.value.Pointer?
    requires forall v :: Leads(g, w, m, v) == Leads(h, w, m, v)
    requires forall v :: Leads(g, ToRoute(c.gpath), c.value.n, v) == Leads(h, ToRoute(c.gpath), c.value.n, v)
    ensures ApartFrom(g, w, m, c)
  {
    hide Leads;
  }

  lemma OutMore(root: Entry, log: seq<Backup>, j: nat, k: nat)
    requires k < j < |log|
    ensures OutBy(root, log, j, k + 1) <==> OutBy(root, log, j, k) || PutsOut(root, log[k], log[j])
    ensures BackBy(log, j, k + 1) <==> BackBy(log, j, k) || (log[k].held.Live? && log[k].gpath == log[j].gpath)
  {
    hide PutsOut;
  }

  lemma StaysOut(h: Heap, r: nat, g: Heap, b: Route, n: nat, c: Item)
    requires Sound(h) && Tame(h, r, g, r, b, n) && c.value.Pointer? && (ToRoute(c.gpath), c.value.n) in h.objs
    requires Leads(h, [], r, ToRoute(c.gpath)) != Some(c.value.n) && Leads(h, b, n, ToRoute(c.gpath)) != Some(c.value.n)
    ensures OutOf(g, r, c)
  {
    assert Owned(h, r, b, n, ToRoute(c.gpath), Leads(g, [], r, ToRoute(c.gpath)));
    hide Leads, Read;
  }

  lemma AloneFrom(root: Entry, t: Tree, log: seq<Backup>, k: nat, j: nat)
    requires Settled(root, t, log) && j < |log| && Displaced(root, log, j) && k < |log| && k != j && log[j].gpath <= log[k].gpath
    ensures log[k].held.Live? ==> log[k].gpath == log[j].gpath
    ensures !log[k].held.Live? && k < j && !(log[k].gpath == log[j].gpath && log[k].held.Nil?) ==> OutBy(root, log, j, k) && !BackBy(log, j, k)
  {
    hide OutBy, BackBy, KeepsFrom;
    assert MayTouch(root, log, j, k);
  }

  lemma RevertSameFrom(root: Entry, h: Heap, r: nat, t: Tree, b: Backup, c: Item, p: Path)
    requires Sound(h) && ([], r) in h.objs && Mirror(h, r, b, c)
    requires p <= b.gpath ==> p == b.gpath && b.held.Nil?
    ensures SameFrom(h, Revert(root, h, r, c), ToRoute(p))
  {
    hide *;
    RevertIs(root, h, r, t, b, c);
    RouteBelow(p, b.gpath);
    SameFromItself(h, ToRoute(p));
    match b.held {
      case Nil =>
        if Undoes(root, b) {
          RemoveSameFrom(h, r, b.gpath, ToRoute(p));
        }
      case Snapshot(_) =>
        if c.value.LeafValue? {
          LeafCellsAre(b.gpath, c.value.text, b.held.cells);
          WriteLeafSameFrom(h, r, b.gpath, c.value.text, ToRoute(p));
        } else {
          WriteStructSameFrom(h, r, b.gpath, c.value.n, ToRoute(p));
        }
      case Live =>
        RevertPointer(root, h, r, b, c);
        WriteStructSameFrom(h, r, b.gpath, c.value.n, ToRoute(p));
    }
  }

  lemma RevertPointer(root: Entry, h: Heap, r: nat, b: Backup, c: Item)
    requires Mirror(h, r, b, c) && b.held.Live?
    ensures c.value.Pointer? && c.gpath == b.gpath && Revert(root, h, r, c) == WriteStruct(h, r, b.gpath, c.value.n)
    ensures (ToRoute(b.gpath), c.value.n) in h.objs
  {
    hide WriteStruct;
  }

  /** After an entry that puts a struct out of its place the tree has nothing of it. */
  lemma PutOut(root: Entry, h: Heap, r: nat, u: Tree, b: Backup, c: Item, e: Backup, d: Item)
    requires Sound(h) && ([], r) in h.objs && Mirror(h, r, b, c) && PutsOut(root, b, e) && d.gpath == e.gpath && d.value.Pointer?
    requires HasLoose(b, c) ==> ApartFrom(h, ToRoute(d.gpath), d.value.n, c)
    requires forall v :: Leads(Revert(root, h, r, c), ToRoute(d.gpath), d.value.n, v) == Leads(h, ToRoute(d.gpath), d.value.n, v)
    ensures OutThere(Revert(root, h, r, c), r, d, false)
  {
    hide *;
    var g := Revert(root, h, r, c);
    PutsOutParts(root, b, e);
    RouteBelow(b.gpath, e.gpath);
    forall v | Leads(h, ToRoute(d.gpath), d.value.n, v).Some?
      ensures Leads(g, [], r, v) != Leads(h, ToRoute(d.gpath), d.value.n, v)
    {
      LeadsBelow(h, ToRoute(d.gpath), d.value.n, v);
      PutOutAt(root, h, r, u, b, c, e, d, v);
    }
    OutThereIf(h, g, r, d);
  }

  lemma OutThereIf(h: Heap, g: Heap, r: nat, d: Item)
    requires d.value.Pointer?
    requires forall v :: Leads(g, ToRoute(d.gpath), d.value.n, v) == Leads(h, ToRoute(d.gpath), d.value.n, v)
    requires forall v :: Leads(h, ToRoute(d.gpath), d.value.n, v).Some? ==> Leads(g, [], r, v) != Leads(h, ToRoute(d.gpath), d.value.n, v)
    ensures OutThere(g, r, d, false)
  {
    LeadsHere(h, ToRoute(d.gpath), d.value.n, ToRoute(d.gpath));
    hide Leads;
    assert Leads(h, ToRoute(d.gpath), d.value.n, ToRoute(d.gpath)).Some?;
  }

  lemma PutOutAt(root: Entry, h: Heap, r: nat, u: Tree, b: Backup, c: Item, e: Backup, d: Item, v: Route)
    requires Sound(h) && ([], r) in h.objs && Mirror(h, r, b, c) && PutsOut(root, b, e) && d.gpath == e.gpath && d.value.Pointer?
    requires HasLoose(b, c) ==> ApartFrom(h, ToRoute(d.gpath), d.value.n, c)
    requires ToRoute(d.gpath) <= v && ToRoute(b.gpath) <= ToRoute(d.gpath) && Leads(h, ToRoute(d.gpath), d.value.n, v).Some?
    ensures Leads(Revert(root, h, r, c), [], r, v) != Leads(h, ToRoute(d.gpath), d.value.n, v)
  {
    hide *;
    RevertIs(root, h, r, u, b, c);
    PutsOutParts(root, b, e);
    match b.held {
      case Nil => RemoveLeads(h, r, b.gpath, v);
      case Snapshot(cells) =>
        if c.value.LeafValue? {
          LeafCellsAre(b.gpath, c.value.text, cells);
          WriteLeafCuts(h, r, b.gpath, c.value.text, v);
        } else {
          LooseParts(h, r, b.gpath, c.value.n, cells);
          LooseNoLeaf(h, r, b.gpath, c.value.n, cells);
          RouteBelow(e.gpath, b.gpath);
          SameRoute(b.gpath, e.gpath);
          WriteStructBehind(h, r, b.gpath, c.value.n, v);
          NotFrom(h, ToRoute(d.gpath), d.value.n, c, v);
        }
      case Live =>
    }
  }

  lemma PutsOutParts(root: Entry, b: Backup, e: Backup)
    requires PutsOut(root, b, e)
    ensures Undoes(root, b) && b.gpath <= e.gpath && !b.held.Live?
    ensures b.held.Snapshot? && !IsLeaf(b.held.cells, b.gpath) ==> b.gpath != e.gpath
  {
  }

  lemma LooseNoLeaf(h: Heap, r: nat, p: Path, n: nat, cells: Tree)
    requires Loose(h, r, p, n, cells)
    ensures !IsLeaf(cells, p)
  {
    assert Sees(h, ToRoute(p), n, p) == At(cells, p);
    if p != [] && Last(p).keys == map[] {
      ShorterThanItself(p);
      NoLeafAbove(h, ToRoute(p), n, ToRoute(Init(p)), Last(p).name);
    }
    hide Leads, LeafAt;
  }

  lemma ShorterThanItself(p: Path)
    requires p != []
    ensures !(ToRoute(p) <= ToRoute(Init(p)))
  {
  }

  lemma NotFrom(h: Heap, w: Route, m: nat, c: Item, v: Route)
    requires ApartFrom(h, w, m, c) && c.value.Pointer? && Leads(h, w, m, v).Some?
    ensures Leads(h, ToRoute(c.gpath), c.value.n, v) != Leads(h, w, m, v)
  {
    hide Leads;
  }

  lemma OutOfIf(h: Heap, r: nat, c: Item)
    requires c.value.Pointer? && Leads(h, [], r, ToRoute(c.gpath)) != Some(c.value.n)
    ensures OutOf(h, r, c)
  {
  }

  /** A struct that waits is left alone by an entry that works as it says. */
  lemma StaysWaiting(root: Entry, h: Heap, r: nat, t: Tree, u: Tree, log: seq<Backup>, items: seq<Item>, k: nat, j: nat)
    requires k < j < |log| && Kept(root, log, h, r, log, items, k) && !Displaced(root, log, k) && Displaced(root, log, j)
    requires Settled(root, t, log) && |log| == |items| && AllWait(root, h, r, t, log, items, k)
    requires RevertTame(h, r, Revert(root, h, r, items[k]), log[k], items[k])
    ensures LeftAlone(root, h, Revert(root, h, r, items[k]), r, log, items, k, j)
  {
    hide *;
    var g := Revert(root, h, r, items[k]);
    NotDisplaced(root, log, k);
    KeptParts(root, log, h, r, log, items, k);
    WaitingParts(root, h, r, t, log, items, k, j);
    OutMore(root, log, j, k);
    RevertIs(root, h, r, u, log[k], items[k]);
    KeepsAll(root, log, k);
    var w, m := ToRoute(items[j].gpath), items[j].value.n;
    if log[k].held.Live? {
      SameFromItself(h, w);
      if OutBy(root, log, j, k + 1) {
        LivePutsNothing(root, log[k], log[j]);
        StillOutThere(h, r, h, items[j], BackBy(log, j, k), BackBy(log, j, k + 1));
      }
    } else if OutBy(root, log, j, k) && !BackBy(log, j, k) {
      if HasLoose(log[k], items[k]) {
        RevertTameLoose(h, r, g, log[k], items[k]);
        ApartBack(h, w, m, items[k]);
        TameKeeps(h, r, g, r, ToRoute(items[k].gpath), items[k].value.n, w, m);
      } else {
        RevertTamePlain(h, r, g, log[k], items[k]);
        TameKeeps(h, r, g, r, [], r, w, m);
      }
      SeparateOut(g, r, items[j]);
    } else {
      if log[j].gpath <= log[k].gpath {
        AloneFrom(root, t, log, k, j);
      }
      RevertSameFrom(root, h, r, u, log[k], items[k], log[j].gpath);
      SameFromSees(h, g, w, m);
      if PutsOut(root, log[k], log[j]) {
        PutOut(root, h, r, u, log[k], items[k], log[j], items[j]);
        OutEither(g, r, items[j], BackBy(log, j, k + 1));
      } else if OutBy(root, log, j, k) {
        if HasLoose(log[k], items[k]) {
          RevertTameLoose(h, r, g, log[k], items[k]);
          LeadsHere(h, w, m, w);
          NotFrom(h, w, m, items[k], w);
          StaysOut(h, r, g, ToRoute(items[k].gpath), items[k].value.n, items[j]);
        } else {
          RevertTamePlain(h, r, g, log[k], items[k]);
          StaysOut(h, r, g, [], r, items[j]);
        }
        OutThough(g, r, items[j]);
      }
    }
    LeftAloneIf(root, h, g, r, log, items, k, j);
  }

  lemma StillOutThere(h: Heap, r: nat, g: Heap, c: Item, back: bool, after: bool)
    requires g == h && c.value.Pointer? && Leads(h, [], r, ToRoute(c.gpath)) != Some(c.value.n) && (back ==> after)
    requires !back ==> Separate(h, [], r, ToRoute(c.gpath), c.value.n)
    ensures OutThere(g, r, c, after)
  {
    hide Separate, Leads;
  }

  lemma ApartBack(h: Heap, w: Route, m: nat, c: Item)
    requires ApartFrom(h, w, m, c) && c.value.Pointer?
    ensures Separate(h, ToRoute(c.gpath), c.value.n, w, m)
  {
    hide Separate;
    SeparateBack(h, w, m, ToRoute(c.gpath), c.value.n);
  }

  lemma SeparateOut(h: Heap, r: nat, c: Item)
    requires c.value.Pointer? && Separate(h, [], r, ToRoute(c.gpath), c.value.n)
    ensures OutThere(h, r, c, false)
    ensures forall back :: OutThere(h, r, c, back)
  {
    var w, n := ToRoute(c.gpath), c.value.n;
    LeadsHere(h, w, n, w);
    hide Leads;
    assert Leads(h, [], r, w).Some? ==> Leads(h, [], r, w) != Leads(h, w, n, w);
  }

  lemma OutEither(h: Heap, r: nat, c: Item, back: bool)
    requires OutThere(h, r, c, false)
    ensures OutThere(h, r, c, back)
  {
    hide OutOf, Separate;
  }

  lemma OutThough(h: Heap, r: nat, c: Item)
    requires OutOf(h, r, c)
    ensures OutThere(h, r, c, true)
  {
    hide OutOf;
  }

  /** An entry that works as it says. */
  lemma StepAsSaid(root: Entry, h: Heap, r: nat, t: Tree, u: Tree, log: seq<Backup>, items: seq<Item>, k: nat)
    requires k < |log| && Kept(root, log, h, r, log, items, k) && Shows(h, r, u) && !Displaced(root, log, k)
    requires Settled(root, t, log) && |log| == |items| && AllWait(root, h, r, t, log, items, k)
    ensures var g := Revert(root, h, r, items[k]);
            && Shows(g, r, Undo(root, u, log[k])) && Kept(root, log, g, r, log, items, k + 1)
            && AllWait(root, g, r, t, log, items, k + 1)
  {
    hide *;
    var g := Revert(root, h, r, items[k]);
    NotDisplaced(root, log, k);
    KeptParts(root, log, h, r, log, items, k);
    RevertKeeps(root, h, r, u, log, items, k);
    RevertIs(root, h, r, u, log[k], items[k]);
    forall j | k < j < |log| && Displaced(root, log, j)
      ensures LeftAlone(root, h, g, r, log, items, k, j)
    {
      StaysWaiting(root, h, r, t, u, log, items, k, j);
    }
    if HasLoose(log[k], items[k]) {
      RevertTameLoose(h, r, g, log[k], items[k]);
      forall i | k < i < |log| && HasLoose(log[i], items[i])
        ensures ApartFrom(h, ToRoute(items[k].gpath), items[k].value.n, items[i])
      {
        PairApart(root, h, r, log, items, k, i);
      }
      WaitMore(root, h, r, g, ToRoute(items[k].gpath), items[k].value.n, t, log, items, k);
    } else {
      RevertTamePlain(h, r, g, log[k], items[k]);
      WaitMore(root, h, r, g, [], r, t, log, items, k);
    }
  }

  lemma NotDisplaced(root: Entry, log: seq<Backup>, k: nat)
    requires k < |log| && !Displaced(root, log, k)
    ensures log[k].held.Live? ==> KeepsPlace(root, log, k)
  {
  }

  lemma RevertTameLoose(h: Heap, r: nat, g: Heap, b: Backup, c: Item)
    requires RevertTame(h, r, g, b, c) && HasLoose(b, c)
    ensures c.value.Pointer? && Tame(h, r, g, r, ToRoute(c.gpath), c.value.n)
  {
  }

  lemma RevertTamePlain(h: Heap, r: nat, g: Heap, b: Backup, c: Item)
    requires RevertTame(h, r, g, b, c) && !HasLoose(b, c)
    ensures Tame(h, r, g, r, [], r)
  {
  }

  /** A displaced struct is out of its place when its entry is reached. */
  lemma OutAtLast(root: Entry, log: seq<Backup>, k: nat)
    requires k < |log| && !KeepsPlace(root, log, k) && KeepsFrom(root, log, k, 0)
    ensures OutBy(root, log, k, k)
  {
    hide Undoes, IsLeaf;
    var j :| 0 <= j < |log| && j != k && Undoes(root, log[j]) && log[j].gpath <= log[k].gpath
             && !(j < k && log[j].gpath == log[k].gpath && log[j].held.Snapshot? && !IsLeaf(log[j].held.cells, log[j].gpath));
    assert PutsOut(root, log[j], log[k]);
  }

  /** A displaced entry writes what the tree had there when the walk began. */
  lemma StepDisplaced(root: Entry, h: Heap, r: nat, t: Tree, u: Tree, log: seq<Backup>, items: seq<Item>, k: nat)
    requires k < |log| && Kept(root, log, h, r, log, items, k) && Shows(h, r, u) && Displaced(root, log, k)
    requires Settled(root, t, log) && |log| == |items| && AllWait(root, h, r, t, log, items, k)
    ensures var g := Revert(root, h, r, items[k]);
            && Shows(g, r, WriteValue(u, log[k].gpath, Sub(t, log[k].gpath))) && Kept(root, log, g, r, log, items, k + 1)
            && AllWait(root, g, r, t, log, items, k + 1)
  {
    hide *;
    KeptParts(root, log, h, r, log, items, k);
    KeptLess(root, log, h, r, log, items, k);
    SettledAt(root, t, log, k);
    WaitingParts(root, h, r, t, log, items, k, k);
    RevertPointer(root, h, r, log[k], items[k]);
    var p, n := log[k].gpath, items[k].value.n;
    var w, g := ToRoute(p), WriteStruct(h, r, p, n);
    OutAtLast(root, log, k);
    WriteStructShows(h, r, p, n, u);
    TreeAt(h, w, n);
    KeptCells(h, t, items[k]);
    WriteSame(u, p, Sub(t, p), TreeFrom(h, w, n));
    forall i | k < i < |log| && log[i].held.Live? && KeepsFrom(root, log, i, k + 1)
      ensures InItsPlace(g, r, items[i])
    {
      StandsAt(root, h, r, log, items, k + 1, i);
      if p <= log[i].gpath {
        AloneFrom(root, t, log, i, k);
        KeptNotOut(root, log, k, i);
      }
      RouteBelow(p, log[i].gpath);
      WriteStructLeads(h, r, p, n, ToRoute(log[i].gpath));
      StandsStill(h, r, g, r, items[i]);
    }
    KeptTame(root, log, h, r, g, r, w, n, log, items, k + 1);
    forall j | k < j < |log| && Displaced(root, log, j)
      ensures LeftAlone(root, h, g, r, log, items, k, j)
    {
      StaysDisplaced(root, h, r, t, u, log, items, k, j);
    }
    WaitMore(root, h, r, g, w, n, t, log, items, k);
  }

  /** A struct that waits is left alone by one that is written back. */
  lemma StaysDisplaced(root: Entry, h: Heap, r: nat, t: Tree, u: Tree, log: seq<Backup>, items: seq<Item>, k: nat, j: nat)
    requires k < j < |log| && Kept(root, log, h, r, log, items, k) && Shows(h, r, u)
    requires Displaced(root, log, k) && Displaced(root, log, j) && OutBy(root, log, k, k)
    requires Settled(root, t, log) && |log| == |items| && AllWait(root, h, r, t, log, items, k)
    ensures LeftAlone(root, h, Revert(root, h, r, items[k]), r, log, items, k, j)
  {
    hide *;
    KeptParts(root, log, h, r, log, items, k);
    SettledAt(root, t, log, k);
    SettledAt(root, t, log, j);
    WaitingParts(root, h, r, t, log, items, k, k);
    WaitingParts(root, h, r, t, log, items, k, j);
    RevertPointer(root, h, r, log[k], items[k]);
    OutMore(root, log, j, k);
    LivePutsNothing(root, log[k], log[j]);
    var p, n := items[k].gpath, items[k].value.n;
    var w, m := ToRoute(items[j].gpath), items[j].value.n;
    var g := WriteStruct(h, r, p, n);
    if log[j].gpath == p {
      SamePutOut(root, log, k, j);
      WriteStructOther(h, r, p, n, m);
      OutOfIf(g, r, items[j]);
      OutThough(g, r, items[j]);
    } else {
      if p <= log[j].gpath {
        AloneFrom(root, t, log, j, k);
        assert false;
      }
      if log[j].gpath <= p {
        AloneFrom(root, t, log, k, j);
        assert false;
      }
      RouteBelow(p, log[j].gpath);
      RouteBelow(log[j].gpath, p);
      WriteStructShows(h, r, p, n, u);
      WriteStructSameFrom(h, r, p, n, w);
      SameFromSees(h, g, w, m);
      if OutBy(root, log, j, k) {
        LeadsBelow(h, ToRoute(p), n, w);
        if BackBy(log, j, k) {
          StaysOut(h, r, g, ToRoute(p), n, items[j]);
          OutThough(g, r, items[j]);
        } else {
          ApartPlaces(h, ToRoute(p), n, w, m);
          TameKeeps(h, r, g, r, ToRoute(p), n, w, m);
          SeparateOut(g, r, items[j]);
        }
      }
    }
    LeftAloneIf(root, h, g, r, log, items, k, j);
  }

  lemma ApartPlaces(h: Heap, b: Route, n: nat, c: Route, k: nat)
    requires !(b <= c) && !(c <= b)
    ensures Separate(h, b, n, c, k)
  {
    forall v | Leads(h, b, n, v).Some?
      ensures Leads(h, b, n, v) != Leads(h, c, k, v)
    {
      LeadsBelow(h, b, n, v);
      LeadsBelow(h, c, k, v);
      if Leads(h, c, k, v).Some? {
        OneBelow(b, c, v);
      }
    }
  }

  lemma OneBelow(b: Route, c: Route, v: Route)
    requires b <= v && c <= v
    ensures b <= c || c <= b
  {
    assert b == v[..|b|] && c == v[..|c|];
    assert if |b| <= |c| then b == c[..|b|] else c == b[..|c|];
  }

  /** What puts the one out of its place puts the other of the same place out of it. */
  lemma SamePutOut(root: Entry, log: seq<Backup>, k: nat, j: nat)
    requires k < j < |log| && log[k].gpath == log[j].gpath && OutBy(root, log, k, k)
    ensures OutBy(root, log, j, k)
  {
    hide Undoes, IsLeaf;
    var i :| 0 <= i < k && PutsOut(root, log[i], log[k]);
    assert PutsOut(root, log[i], log[j]);
  }

  lemma KeptNotOut(root: Entry, log: seq<Backup>, k: nat, i: nat)
    requires k < i < |log| && KeepsFrom(root, log, i, k + 1) && OutBy(root, log, k, k)
    ensures log[i].gpath != log[k].gpath
  {
    hide Undoes, IsLeaf;
    var m :| 0 <= m < k && PutsOut(root, log[m], log[k]);
  }

  lemma KeptCells(h: Heap, t: Tree, c: Item)
    requires Keeps(h, t, c) && forall q :: At(TreeFrom(h, ToRoute(c.gpath), c.value.n), q) == Sees(h, ToRoute(c.gpath), c.value.n, q)
    ensures SameBelow(Sub(t, c.gpath), TreeFrom(h, ToRoute(c.gpath), c.value.n), c.gpath)
  {
    hide Sees, TreeFrom;
  }

  lemma LivePutsNothing(root: Entry, b: Backup, e: Backup)
    requires b.held.Live?
    ensures !PutsOut(root, b, e)
  {
  }

  // ---------------------------------------------------------------- the whole walk

  lemma {:induction false} FrozenUpTo(root: Entry, h: Heap, r: nat, t: Tree, log: seq<Backup>, items: seq<Item>, k: nat)
    requires k <= |log| && Kept(root, log, h, r, log, items, 0) && Shows(h, r, t) && Settled(root, t, log)
    ensures |items| == |log|
    ensures var g := RevertAll(root, h, r, items[..k]);
            && Shows(g, r, UndoAll(root, t, Frozen(root, t, log)[..k])) && Kept(root, log, g, r, log, items, k)
            && AllWait(root, g, r, t, log, items, k)
  {
    hide *;
    KeptParts(root, log, h, r, log, items, 0);
    var f := Frozen(root, t, log);
    if k == 0 {
      WaitAtFirst(root, h, r, t, log, items);
      RevertNone(root, h, r, t);
      assert f[..0] == [] && items[..0] == [];
    } else {
      FrozenUpTo(root, h, r, t, log, items, k - 1);
      var g, u := RevertAll(root, h, r, items[..k - 1]), UndoAll(root, t, f[..k - 1]);
      assert f[..k] == f[..k - 1] + [f[k - 1]] && items[..k] == items[..k - 1] + [items[k - 1]];
      UndoSnoc(root, t, f[..k - 1], f[k - 1]);
      RevertSnoc(root, h, r, items[..k - 1], items[k - 1]);
      if Displaced(root, log, k - 1) {
        StepDisplaced(root, g, r, t, u, log, items, k - 1);
        UndoSnapshot(root, u, f[k - 1]);
      } else {
        StepAsSaid(root, g, r, t, u, log, items, k - 1);
      }
    }
  }

  lemma UndoSnapshot(root: Entry, u: Tree, b: Backup)
    ensures b.held.Snapshot? ==> Undo(root, u, b) == WriteValue(u, b.gpath, b.held.cells)
  {
  }

  /** Walking the log on the objects is walking it on the tree, where an updated struct that is put out of its place on
      the way has become an old value with the updated content. */
  lemma RevertYields(root: Entry, h: Heap, r: nat, t: Tree, log: seq<Backup>, items: seq<Item>)
    requires Kept(root, log, h, r, log, items, 0) && Shows(h, r, t) && Settled(root, t, log)
    ensures Shows(RevertAll(root, h, r, items), r, UndoAll(root, t, Frozen(root, t, log)))
  {
    hide *;
    FrozenUpTo(root, h, r, t, log, items, |log|);
    var f := Frozen(root, t, log);
    assert f[..|log|] == f && items[..|log|] == items;
  }

  // ---------------------------------------------------------------- rolling back a request

  /** Entries that are unrelated to all others keep their place. */
  lemma ApartKeepPlace(root: Entry, log: seq<Backup>)
    requires Unrelated(log)
    ensures AllKeepPlace(root, log)
  {
    hide Undoes, IsLeaf;
    forall i, j | 0 <= i < |log| && 0 <= j < |log| && i != j
      ensures !(log[j].gpath <= log[i].gpath)
    {
      assert !Related(log[if i < j then i else j].gpath, log[if i < j then j else i].gpath);
    }
  }

  /** For targets that are apart: the objects show the tree at the start again exactly when no updated container, no new
      node that DeleteValue skips, was given anything that was not there. */
  lemma RestoredExact(root: Entry, write: Writer, h: Heap, r: nat, t0: Tree, ops: seq<Op>, st: St)
    requires WellRun(root, t0, ops, st) && Sound(h) && ([], r) in h.objs && Shows(h, r, t0)
    requires Writes(root, write) && RunReady(root, write, ObjSt(h, r, [], false), St(t0, [], false), ops)
    ensures var done := TakeOps(root, write, ObjSt(h, r, [], false), ops);
            Shows(RevertAll(root, done.heap, done.root, done.log), done.root, t0) <==> StickingWroteNothing(root, t0, ops, st.log)
  {
    hide *;
    RunParts(root, t0, ops, st);
    ApartIs(t0, st.log);
    ApartKeepPlace(root, st.log);
    RequestRefines(root, write, h, r, t0, ops);
    RollbackExact(root, t0, ops, st);
    var done := TakeOps(root, write, ObjSt(h, r, [], false), ops);
    OneTreeShown(RevertAll(root, done.heap, done.root, done.log), done.root, UndoAll(root, st.tree, st.log), t0);
  }

  lemma ApartIs(t0: Tree, log: seq<Backup>)
    requires TargetsApart(t0, log)
    ensures Unrelated(log)
  {
  }

  lemma OneTreeShown(h: Heap, r: nat, t: Tree, u: Tree)
    requires Shows(h, r, t)
    ensures Shows(h, r, u) <==> t == u
  {
    hide Sees;
    if Shows(h, r, u) {
      forall q
        ensures At(t, q) == At(u, q)
      {
        assert Sees(h, [], r, q) == At(t, q) && Sees(h, [], r, q) == At(u, q);
      }
      SameMap(t, u);
    }
  }

  /** What a path goes back to: for an updated struct that has lost its place what the request made of it, for any other
      old value what was there when its operation began. */
  ghost function BackTo(root: Entry, t0: Tree, ops: seq<Op>, st: St, i: nat): Tree
    requires i < |st.log| && forall op :: op in ops ==> WellFormed(op)
  {
    if Displaced(root, st.log, i) then st.tree else Origin(root, t0, ops, i)
  }

  /** Every path has that of the last entry at or above it, or came with a list entry that was made on the way to a later
      one. */
  ghost predicate WentBack(root: Entry, t0: Tree, ops: seq<Op>, st: St, u: Tree)
    requires forall op :: op in ops ==> WellFormed(op)
  {
    var f := Frozen(root, st.tree, st.log);
    forall q, i: nat :: i < |st.log| && IsLast(root, st.tree, f, q, i) ==>
      At(u, q) == if Undoes(root, f[i]) && f[i].gpath <= q then At(BackTo(root, t0, ops, st, i), q) else Given(root, f[i], q)
  }

  /** Rolling back a request takes each path back to where the last operation on it began, not to t0; a container whose
      update has lost its place stays updated, and a list entry that is missing on the way to an old value is made anew.
      It restores t0 exactly when that is what t0 had. */
  lemma RollbackYields(root: Entry, write: Writer, h: Heap, r: nat, t0: Tree, ops: seq<Op>, st: St)
    requires (forall op :: op in ops ==> WellFormed(op)) && AlwaysFoundAll(root, St(t0, [], false), ops)
    requires st == RunOps(root, St(t0, [], false), ops) && Sound(h) && ([], r) in h.objs && Shows(h, r, t0)
    requires Writes(root, write) && RunReady(root, write, ObjSt(h, r, [], false), St(t0, [], false), ops)
    requires Settled(root, st.tree, st.log)
    ensures var done, f := TakeOps(root, write, ObjSt(h, r, [], false), ops), Frozen(root, st.tree, st.log);
            var after := RevertAll(root, done.heap, done.root, done.log);
            && (exists u :: Shows(after, done.root, u) && WentBack(root, t0, ops, st, u) && RestSame(root, st.tree, f, u))
            && (Shows(after, done.root, t0) <==> WentBack(root, t0, ops, st, t0) && RestSame(root, st.tree, f, t0))
  {
    hide *;
    var done, f := TakeOps(root, write, ObjSt(h, r, [], false), ops), Frozen(root, st.tree, st.log);
    var u := UndoAll(root, st.tree, f);
    StandsAtFirst(root, st.log, h, r, t0);
    RunRefines(root, write, st.log, ObjSt(h, r, [], false), St(t0, [], false), ops);
    StandsParts(root, st.log, done, st);
    RevertYields(root, done.heap, done.root, st.tree, st.log, done.log);
    LastEntryWins(root, t0, st.tree, f);
    RunHolds(root, t0, ops);
    HeldBack(root, t0, ops, st, u);
    HeldBack(root, t0, ops, st, t0);
    OneTreeShown(RevertAll(root, done.heap, done.root, done.log), done.root, u, t0);
  }

  lemma HeldBack(root: Entry, t0: Tree, ops: seq<Op>, st: St, u: Tree)
    requires forall op :: op in ops ==> WellFormed(op)
    requires forall i :: 0 <= i < |st.log| ==> HoldsOld(Origin(root, t0, ops, i), st.log[i])
    ensures WentBack(root, t0, ops, st, u) <==> LastHeld(root, st.tree, Frozen(root, st.tree, st.log), u)
  {
    hide Origin, HoldsOld, HeldCells, Undoes, Displaced, Says;
    var f := Frozen(root, st.tree, st.log);
    forall q, i: nat | IsLast(root, st.tree, f, q, i)
      ensures i < |st.log|
      ensures Undoes(root, f[i]) && f[i].gpath <= q ==> Given(root, f[i], q) == At(BackTo(root, t0, ops, st, i), q)
    {
      if Undoes(root, f[i]) && f[i].gpath <= q {
        if Displaced(root, st.log, i) {
          FrozenAt(st.tree, st.log[i], q);
        } else {
          HeldAt(root, Origin(root, t0, ops, i), f[i], q);
        }
      }
    }
  }

  lemma FrozenAt(t: Tree, b: Backup, q: Path)
    requires b.gpath <= q
    ensures At(HeldCells(b.(held := Snapshot(Sub(t, b.gpath)))), q) == At(t, q)
  {
  }

  lemma HeldAt(root: Entry, t: Tree, b: Backup, q: Path)
    requires HoldsOld(t, b) && Undoes(root, b) && b.gpath <= q
    ensures At(HeldCells(b), q) == At(t, q)
  {
  }

  // ---------------------------------------------------------------- a container that is made and then updated

  /** The tree after the two updates. */
  function UpdatedTwice(root: Entry, t0: Tree, x: Target, y: Target): Tree {
    WriteTyped(root, WriteTyped(root, t0, x.path, x.value), x.path, y.value)
  }

  /** A request that makes a container and then updates it is not rolled back at all: deleting it puts its struct out
      of its place, and writing the struct back brings everything back. So it is restored only if it wrote nothing. */
  lemma MadeThenUpdated(root: Entry, write: Writer, h: Heap, r: nat, t0: Tree, x: Target, y: Target, pushed: bool, ops: seq<Op>)
    requires ops == [Op(UPDATE, x, [], [], true), Op(UPDATE, y, [y], [pushed], true)] && x.path == y.path
    requires !x.readOnly && !y.readOnly && y.parsed && WriteOk(root, x.path, x.value) && !Refuses(root, x.path)
    requires !IsLeaf(WriteTyped(root, t0, x.path, x.value), x.path) && !IsLeaf(UpdatedTwice(root, t0, x, y), x.path)
    requires Sound(h) && ([], r) in h.objs && Shows(h, r, t0)
    requires Writes(root, write) && RunReady(root, write, ObjSt(h, r, [], false), St(t0, [], false), ops)
    ensures var done := TakeOps(root, write, ObjSt(h, r, [], false), ops);
            && Shows(done.heap, done.root, UpdatedTwice(root, t0, x, y))
            && Shows(RevertAll(root, done.heap, done.root, done.log), done.root, UpdatedTwice(root, t0, x, y))
  {
    hide *;
    RunTwice(root, t0, x, y, pushed, ops);
    var st := RunOps(root, St(t0, [], false), ops);
    var done := TakeOps(root, write, ObjSt(h, r, [], false), ops);
    StandsAtFirst(root, st.log, h, r, t0);
    RunRefines(root, write, st.log, ObjSt(h, r, [], false), St(t0, [], false), ops);
    StandsParts(root, st.log, done, st);
    MadeIsOut(root, st.tree, st.log, x.path);
    MadeBack(root, st.tree, st.log, x.path);
    RevertYields(root, done.heap, done.root, st.tree, st.log, done.log);
  }

  /** What the two updates are on the tree. */
  lemma RunTwice(root: Entry, t0: Tree, x: Target, y: Target, pushed: bool, ops: seq<Op>)
    requires ops == [Op(UPDATE, x, [], [], true), Op(UPDATE, y, [y], [pushed], true)] && x.path == y.path
    requires !x.readOnly && !y.readOnly && y.parsed && WriteOk(root, x.path, x.value) && !Refuses(root, x.path)
    requires !IsLeaf(WriteTyped(root, t0, x.path, x.value), x.path) && !IsLeaf(UpdatedTwice(root, t0, x, y), x.path)
    ensures forall op :: op in ops ==> WellFormed(op)
    ensures var st, p := RunOps(root, St(t0, [], false), ops), x.path;
            && st.tree == UpdatedTwice(root, t0, x, y) && |st.log| == 2 && st.log[0].gpath == st.log[1].gpath == p
            && st.log[0].held.Nil? && st.log[1].held.Live? && Undoes(root, st.log[0]) && Anchored(st.tree, p) && !IsLeaf(st.tree, p)
  {
    var p, t1 := x.path, WriteTyped(root, t0, x.path, x.value);
    var b0 := Backup(UPDATE, p, Nil, true);
    hide WriteTyped, Anchored, IsLeaf, DataTree.Reach;
    assert RunOp(root, St(t0, [], false), ops[0]) == St(t1, [b0], false);
    TwoOps(root, St(t0, [], false), ops[0], ops[1]);
    OneTarget(root, UPDATE, St(t1, [b0], false), y, pushed);
    ReachesAll(root, p, x.value);
    MadeAnchored(root, t1, p, y.value);
  }

  lemma ReachesAll(root: Entry, p: Path, d: Decoded)
    requires WriteOk(root, p, d)
    ensures DataTree.Reach(root, p) == |p| && Descend(root, Names(p)).Some?
  {
  }

  lemma MadeAnchored(root: Entry, t: Tree, p: Path, d: Decoded)
    requires DataTree.Reach(root, p) == |p|
    ensures Anchored(WriteTyped(root, t, p, d), p)
  {
    forall i | 0 <= i < |p| - 1
      ensures EntryThere(WriteTyped(root, t, p, d), p, i)
    {
      CreateMakesEntries(t, p, i);
    }
  }

  lemma MadeIsOut(root: Entry, t: Tree, log: seq<Backup>, p: Path)
    requires |log| == 2 && log[0].gpath == log[1].gpath == p && log[0].held.Nil? && log[1].held.Live?
    requires !IsLeaf(t, p) && Undoes(root, log[0])
    ensures Settled(root, t, log) && Displaced(root, log, 1) && !Displaced(root, log, 0)
  {
    hide IsLeaf;
    LiveUndoesNothing(root, log[1]);
    hide Undoes;
    assert log[0].gpath <= log[1].gpath;
  }

  lemma LiveUndoesNothing(root: Entry, b: Backup)
    requires b.held.Live?
    ensures !Undoes(root, b)
  {
  }

  /** Deleting the node and writing its struct back is doing nothing. */
  lemma MadeBack(root: Entry, t: Tree, log: seq<Backup>, p: Path)
    requires |log| == 2 && log[0].gpath == log[1].gpath == p && log[0].held.Nil? && Undoes(root, log[0]) && Anchored(t, p)
    requires Displaced(root, log, 1) && !Displaced(root, log, 0)
    ensures UndoAll(root, t, Frozen(root, t, log)) == t
  {
    var f := Frozen(root, t, log);
    hide Displaced, Anchored, Delete, WriteValue;
    assert f == [log[0]] + [f[1]];
    UndoSnoc(root, t, [log[0]], f[1]);
    assert [] + [log[0]] == [log[0]];
    UndoSnoc(root, t, [], log[0]);
    assert UndoAll(root, t, [log[0]]) == Delete(t, p);
    DeleteBack(t, p);
  }

  lemma DeleteBack(t: Tree, p: Path)
    requires Anchored(t, p)
    ensures WriteValue(Delete(t, p), p, Sub(t, p)) == t
  {
    DeleteAnchored(t, p);
    hide WriteValue, Delete, Anchored;
    forall q
      ensures At(WriteValue(Delete(t, p), p, Sub(t, p)), q) == At(t, q)
    {
      WriteValueAt(Delete(t, p), p, Sub(t, p), q);
      DeleteAt(t, p, q);
    }
    SameMap(WriteValue(Delete(t, p), p, Sub(t, p)), t);
  }
}
