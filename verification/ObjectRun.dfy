/** Running a request on the objects is running it on the tree, and so is rolling it back, as long as no updated struct
    loses its place. */
module ObjectRun {
  import opened Text
  import opened PathText
  import opened Schema
  import opened DataTree
  import opened Transaction
  import opened Objects
  import opened ObjectSet

  // ---------------------------------------------------------------- one more item

  /** An item that stands for the next entry of the whole log joins those that are there. */
  lemma KeptAdd(root: Entry, whole: seq<Backup>, h: Heap, r: nat, log: seq<Backup>, items: seq<Item>, b: Backup, c: Item)
    requires Kept(root, whole, h, r, log, items, 0) && log + [b] <= whole && Mirror(h, r, b, c)
    requires b.held.Live? ==> InItsPlace(h, r, c)
    requires HasLoose(b, c) ==> forall i :: 0 <= i < |log| && HasLoose(log[i], items[i])
                                  ==> ApartFrom(h, ToRoute(c.gpath), c.value.n, items[i])
    ensures Kept(root, whole, h, r, log + [b], items + [c], 0)
  {
    hide Mirror, Separate, InItsPlace, KeepsFrom;
    var log', items' := log + [b], items + [c];
    assert forall i :: 0 <= i < |log| ==> log'[i] == log[i] && items'[i] == items[i];
    assert log'[|log|] == b && items'[|log|] == c;
    forall i, j | 0 <= i < j < |log'| && HasLoose(log'[i], items'[i]) && HasLoose(log'[j], items'[j])
      ensures Separate(h, ToRoute(items'[i].gpath), items'[i].value.n, ToRoute(items'[j].gpath), items'[j].value.n)
    {
      if j == |log| {
        assert ApartFrom(h, ToRoute(c.gpath), c.value.n, items[i]);
        SeparateBack(h, ToRoute(c.gpath), c.value.n, ToRoute(items[i].gpath), items[i].value.n);
      }
    }
  }

  /** Writing in place keeps everything. */
  lemma KeptWrite(root: Entry, whole: seq<Backup>, h: Heap, r: nat, g: Heap, u: Tree, log: seq<Backup>, items: seq<Item>)
    requires Kept(root, whole, h, r, log, items, 0) && WroteInPlace(h, r, g, u)
    ensures Kept(root, whole, g, r, log, items, 0) && Shows(g, r, u)
  {
    hide *;
    WroteParts(h, r, g, u);
    KeptParts(root, whole, h, r, log, items, 0);
    forall i | 0 <= i < |log| && log[i].held.Live? && KeepsFrom(root, whole, i, 0)
      ensures InItsPlace(g, r, items[i])
    {
      Stands(root, whole, h, r, log, items, i);
      InPlaceAt(h, r, g, ToRoute(items[i].gpath));
      StandsStill(h, r, g, r, items[i]);
    }
    KeptTame(root, whole, h, r, g, r, [], r, log, items, 0);
  }

  lemma WroteParts(h: Heap, r: nat, g: Heap, u: Tree)
    requires WroteInPlace(h, r, g, u)
    ensures Shows(g, r, u) && Tame(h, r, g, r, [], r) && InPlace(h, r, g)
  {
  }

  lemma Stands(root: Entry, whole: seq<Backup>, h: Heap, r: nat, log: seq<Backup>, items: seq<Item>, i: nat)
    requires Kept(root, whole, h, r, log, items, 0) && i < |log| && log[i].held.Live? && KeepsFrom(root, whole, i, 0)
    ensures InItsPlace(h, r, items[i]) && items[i].gpath == log[i].gpath && log[i] == whole[i]
    ensures Leads(h, [], r, ToRoute(items[i].gpath)).Some?
  {
    hide Leads, Separate, Sees, KeepsFrom;
    assert Mirror(h, r, log[i], items[i]);
  }

  // ---------------------------------------------------------------- a node is taken out

  /** Entries that keep their place are not below what a later entry takes out. */
  lemma NotTakenOut(root: Entry, whole: seq<Backup>, i: nat, k: nat)
    requires i < k < |whole| && KeepsFrom(root, whole, i, 0) && whole[k].held.Snapshot?
    ensures !(ToRoute(whole[k].gpath) <= ToRoute(whole[i].gpath))
  {
    assert Undoes(root, whole[k]);
    RouteBelow(whole[k].gpath, whole[i].gpath);
  }

  lemma KeptRemove(root: Entry, whole: seq<Backup>, h: Heap, r: nat, p: Path, t: Tree, log: seq<Backup>, items: seq<Item>,
      b: Backup)
    requires Kept(root, whole, h, r, log, items, 0) && Shows(h, r, t) && p != []
    requires log + [b] <= whole && b.gpath == p && b.held.Snapshot?
    ensures var g := Remove(h, r, p);
            Kept(root, whole, g, r, log, items, 0) && Shows(g, r, Delete(t, p)) && Tame(h, r, g, r, [], r)
  {
    hide *;
    var g := Remove(h, r, p);
    KeptParts(root, whole, h, r, log, items, 0);
    RemoveTree(h, r, p);
    RemoveShows(h, r, p, t);
    assert whole[|log|] == b;
    forall i | 0 <= i < |log| && log[i].held.Live? && KeepsFrom(root, whole, i, 0)
      ensures InItsPlace(g, r, items[i])
    {
      Stands(root, whole, h, r, log, items, i);
      NotTakenOut(root, whole, i, |log|);
      RemoveLeads(h, r, p, ToRoute(items[i].gpath));
      StandsStill(h, r, g, r, items[i]);
    }
    KeptTame(root, whole, h, r, g, r, [], r, log, items, 0);
  }

  /** What is seen from the struct at p is what the tree has there. */
  lemma SeenBelow(h: Heap, r: nat, p: Path, n: nat)
    requires Leads(h, [], r, ToRoute(p)) == Some(n)
    ensures forall v :: ToRoute(p) <= v ==> Leads(h, ToRoute(p), n, v) == Leads(h, [], r, v)
    ensures forall q :: p <= q && (q == p ==> p == [] || Last(p).keys != map[] || Sees(h, [], r, p) == None)
              ==> Sees(h, ToRoute(p), n, q) == Sees(h, [], r, q)
  {
    var w := ToRoute(p);
    forall v | w <= v
      ensures Leads(h, w, n, v) == Leads(h, [], r, v)
    {
      LeadsSplit(h, [], r, w, v);
    }
    forall q | p <= q && (q == p ==> p == [] || Last(p).keys != map[] || Sees(h, [], r, p) == None)
      ensures Sees(h, w, n, q) == Sees(h, [], r, q)
    {
      RouteBelow(p, q);
      if q != [] {
        BelowInit(p, q);
        RouteBelow(p, Init(q));
        NoLeafAbove(h, w, n, ToRoute(Init(q)), Last(q).name);
        RouteBelow(q, Init(q));
      }
      hide Leads, ToRoute, Read;
    }
  }

  /** A struct that is taken out of the tree is loose, with what the tree had there. */
  lemma TakenOutLoose(h: Heap, r: nat, p: Path, n: nat, t: Tree, cells: Tree)
    requires Sound(h) && ([], r) in h.objs && Shows(h, r, t) && p != [] && Leads(h, [], r, ToRoute(p)) == Some(n)
    requires !IsLeaf(t, p) && SameBelow(cells, t, p)
    ensures Loose(Remove(h, r, p), r, p, n, cells)
    ensures forall v :: Leads(Remove(h, r, p), ToRoute(p), n, v) == if ToRoute(p) <= v then Leads(h, [], r, v) else None
  {
    hide *;
    var g, w := Remove(h, r, p), ToRoute(p);
    LeadsInside(h, [], r, w);
    RemoveTree(h, r, p);
    TameParts(h, r, g, r, [], r);
    RemoveSameFrom(h, r, p, w);
    SameFromSees(h, g, w, n);
    SeenBelow(h, r, p, n);
    forall v
      ensures Leads(g, w, n, v) == if w <= v then Leads(h, [], r, v) else None
      ensures Leads(g, [], r, v) == if w <= v then None else Leads(h, [], r, v)
    {
      LeadsBelow(h, w, n, v);
      RemoveLeads(h, r, p, v);
    }
    NotLeafSeen(h, r, t, p);
    LooseIf(h, g, r, p, n, t, cells);
  }

  lemma NotLeafSeen(h: Heap, r: nat, t: Tree, p: Path)
    requires Shows(h, r, t) && !IsLeaf(t, p) && p != []
    ensures Last(p).keys == map[] ==> Sees(h, [], r, p) == None
  {
    assert Sees(h, [], r, p) == At(t, p);
    hide LeafAt;
  }

  lemma LooseIf(h: Heap, g: Heap, r: nat, p: Path, n: nat, t: Tree, cells: Tree)
    requires (ToRoute(p), n) in g.objs && Shows(h, r, t) && SameBelow(cells, t, p)
    requires p != [] && (Last(p).keys == map[] ==> Sees(h, [], r, p) == None)
    requires forall v :: Leads(g, ToRoute(p), n, v) == if ToRoute(p) <= v then Leads(h, [], r, v) else None
    requires forall v :: Leads(g, [], r, v) == if ToRoute(p) <= v then None else Leads(h, [], r, v)
    requires forall q :: Sees(g, ToRoute(p), n, q) == Sees(h, ToRoute(p), n, q)
    requires forall q :: p <= q && (q == p ==> p == [] || Last(p).keys != map[] || Sees(h, [], r, p) == None)
               ==> Sees(h, ToRoute(p), n, q) == Sees(h, [], r, q)
    ensures Loose(g, r, p, n, cells)
  {
    hide Leads, Sees;
    forall q | p <= q
      ensures Sees(g, ToRoute(p), n, q) == At(cells, q)
    {
      assert Sees(h, [], r, q) == At(t, q) && At(cells, q) == At(t, q);
    }
  }

  /** A new root takes the place of the old one, which is loose from then on. */
  lemma NewRoot(h: Heap, r: nat, t: Tree)
    requires Sound(h) && ([], r) in h.objs && Shows(h, r, t)
    ensures var g := Poke(h, [], h.next, EMPTY, 1);
            && Tame(h, r, g, h.next, [], r) && Shows(g, h.next, map[]) && Loose(g, h.next, [], r, t)
            && forall v :: Leads(g, [], r, v) == Leads(h, [], r, v)
  {
    hide *;
    var g, s := Poke(h, [], h.next, EMPTY, 1), h.next;
    LeadsHere(h, [], r, []);
    SoundBelow(h, [], r);
    EmptyHasNothing();
    PokeSound(h, [], s, EMPTY, 1);
    PokeRead(h, [], s, EMPTY, 1);
    forall v
      ensures Leads(g, [], r, v) == Leads(h, [], r, v)
      ensures Leads(g, [], s, v) == if v == [] then Some(s) else None
    {
      PokeOther(h, [], r, [], s, EMPTY, 1, v);
      NothingBehind(g, s, v);
    }
    NewRootTame(h, r, g);
    NewRootLoose(h, r, g, t);
    NothingShown(g, s);
  }

  lemma EmptyHasNothing()
    ensures EMPTY.links == map[] && EMPTY.leaves == map[]
  {
  }

  lemma NothingBehind(h: Heap, n: nat, v: Route)
    requires Read(h, [], n).links == map[]
    ensures Leads(h, [], n, v) == if v == [] then Some(n) else None
  {
    LeadsHere(h, [], n, []);
    if v != [] {
      LinkBelow(h, [], n, v);
    }
    hide Leads, Read;
  }

  lemma NewRootTame(h: Heap, r: nat, g: Heap)
    requires g == Poke(h, [], h.next, EMPTY, 1) && Sound(g) && forall k :: k in h.objs || k == ([], h.next) ==> k in g.objs
    requires forall v, k: nat :: v != [] || k != h.next ==> Read(g, v, k) == Read(h, v, k)
    requires forall v :: Leads(g, [], h.next, v) == if v == [] then Some(h.next) else None
    ensures Tame(h, r, g, h.next, [], r)
  {
    hide Leads, Read, Sound;
  }

  lemma NewRootLoose(h: Heap, r: nat, g: Heap, t: Tree)
    requires Sound(h) && ([], r) in h.objs && ([], r) in g.objs && Shows(h, r, t) && r != h.next
    requires forall v :: Leads(g, [], r, v) == Leads(h, [], r, v)
    requires forall v :: Leads(g, [], h.next, v) == if v == [] then Some(h.next) else None
    requires forall v, k: nat :: v != [] || k != h.next ==> Read(g, v, k) == Read(h, v, k)
    ensures Loose(g, h.next, [], r, t)
  {
    LeadsHere(h, [], r, []);
    forall q
      ensures Sees(g, [], r, q) == At(t, q)
    {
      if q != [] {
        LeadsInside(h, [], r, ToRoute(Init(q)));
      }
      assert Sees(h, [], r, q) == At(t, q);
      hide Leads, Read;
    }
  }

  lemma NothingShown(h: Heap, n: nat)
    requires Read(h, [], n).leaves == map[] && forall v :: Leads(h, [], n, v) == if v == [] then Some(n) else None
    ensures Shows(h, n, map[])
  {
    forall q
      ensures Sees(h, [], n, q) == At(map[], q)
    {
      SeesIs(h, n, q);
      hide Leads, Read, Sees;
    }
  }

  // ---------------------------------------------------------------- one target

  /** The objects and their log stand for the tree and its log. */
  ghost predicate StandsFor(root: Entry, whole: seq<Backup>, st: ObjSt, t: St) {
    && Shows(st.heap, st.root, t.tree) && Kept(root, whole, st.heap, st.root, t.log, st.log, 0) && st.failed == t.failed
  }

  /** What Get returned for the target is still so. */
  ghost predicate Pending(h: Heap, r: nat, t: Tree, optype: OpType, x: Target, held: Held, value: Value) {
    match value
    case NoValue => held.Nil?
    case LeafValue(v) => held.Snapshot? && LeafCells(x.path, v, held.cells)
    case Pointer(n) =>
      && Leads(h, [], r, ToRoute(x.path)) == Some(n) && !IsLeaf(t, x.path)
      && if Detaches(optype, x) then held.Snapshot? && SameBelow(held.cells, t, x.path) else held.Live?
  }

  /** What the struct at p had in common with loose ones it does not get by being taken out. */
  lemma ApartOnceOut(root: Entry, whole: seq<Backup>, h: Heap, r: nat, g: Heap, s: nat, log: seq<Backup>, items: seq<Item>,
      p: Path, n: nat)
    requires Kept(root, whole, h, r, log, items, 0) && Tame(h, r, g, s, [], r)
    requires forall v :: Leads(g, ToRoute(p), n, v).Some? ==> Leads(g, ToRoute(p), n, v) == Leads(h, [], r, v)
    ensures forall i :: 0 <= i < |log| && HasLoose(log[i], items[i]) ==> ApartFrom(g, ToRoute(p), n, items[i])
  {
    hide Sees, Leads, Sound, Loose, Tame, InItsPlace, KeepsFrom;
    forall i | 0 <= i < |log| && HasLoose(log[i], items[i])
      ensures ApartFrom(g, ToRoute(p), n, items[i])
    {
      assert Mirror(h, r, log[i], items[i]);
      KeptParts(root, whole, h, r, log, items, 0);
      assert ApartFrom(h, [], r, items[i]);
      MirrorKept(h, r, g, s, [], r, log[i], items[i]);
    }
  }

  lemma TakeOut(root: Entry, whole: seq<Backup>, h: Heap, r: nat, t: Tree, log: seq<Backup>, items: seq<Item>, b: Backup,
      c: Item)
    requires Kept(root, whole, h, r, log, items, 0) && Shows(h, r, t) && log + [b] <= whole
    requires c.optype == b.optype && c.gpath == b.gpath && c.executed == b.executed && b.gpath != [] && b.held.Snapshot?
    requires match c.value
             case NoValue => false
             case LeafValue(v) => LeafCells(b.gpath, v, b.held.cells)
             case Pointer(n) => Leads(h, [], r, ToRoute(b.gpath)) == Some(n) && !IsLeaf(t, b.gpath) && SameBelow(b.held.cells, t, b.gpath)
    ensures var g := Remove(h, r, b.gpath);
            Kept(root, whole, g, r, log + [b], items + [c], 0) && Shows(g, r, Delete(t, b.gpath))
  {
    hide *;
    var p, g := b.gpath, Remove(h, r, b.gpath);
    KeptRemove(root, whole, h, r, p, t, log, items, b);
    KeptParts(root, whole, h, r, log, items, 0);
    match c.value {
      case LeafValue(v) => MirrorLeaf(g, r, b, c);
      case Pointer(n) =>
        TakenOutLoose(h, r, p, n, t, b.held.cells);
        ApartOnceOut(root, whole, h, r, g, r, log, items, p, n);
        MirrorLoose(g, r, b, c);
    }
    KeptAdd(root, whole, g, r, log, items, b, c);
  }

  lemma MirrorLeaf(h: Heap, r: nat, b: Backup, c: Item)
    requires c.optype == b.optype && c.gpath == b.gpath && c.executed == b.executed && b.held.Snapshot? && c.value.LeafValue?
    requires LeafCells(b.gpath, c.value.text, b.held.cells)
    ensures Mirror(h, r, b, c) && !HasLoose(b, c)
  {
    hide LeafCells;
  }

  lemma MirrorLoose(h: Heap, r: nat, b: Backup, c: Item)
    requires c.optype == b.optype && c.gpath == b.gpath && c.executed == b.executed && b.held.Snapshot? && c.value.Pointer?
    requires Loose(h, r, b.gpath, c.value.n, b.held.cells)
    ensures Mirror(h, r, b, c)
  {
    hide Loose;
  }

  /** A target that stays in the tree, or has no old value, joins the log. */
  lemma StayIn(root: Entry, whole: seq<Backup>, h: Heap, r: nat, log: seq<Backup>, items: seq<Item>, b: Backup, c: Item)
    requires Kept(root, whole, h, r, log, items, 0) && log + [b] <= whole
    requires c.optype == b.optype && c.gpath == b.gpath && c.executed == b.executed
    requires match c.value
             case NoValue => b.held.Nil?
             case LeafValue(v) => b.held.Snapshot? && LeafCells(b.gpath, v, b.held.cells)
             case Pointer(n) => b.held.Live? && Leads(h, [], r, ToRoute(b.gpath)) == Some(n)
    ensures Kept(root, whole, h, r, log + [b], items + [c], 0)
  {
    KeptParts(root, whole, h, r, log, items, 0);
    LeadsInside(h, [], r, ToRoute(b.gpath));
    hide Kept, Leads, Sees, Sound, LeafCells, KeepsFrom;
    KeptAdd(root, whole, h, r, log, items, b, c);
  }

  lemma TakeRoot(root: Entry, whole: seq<Backup>, h: Heap, r: nat, t: Tree, log: seq<Backup>, items: seq<Item>, b: Backup,
      c: Item)
    requires Kept(root, whole, h, r, log, items, 0) && Shows(h, r, t) && log + [b] <= whole
    requires c.optype == b.optype && c.gpath == b.gpath == [] && c.executed == b.executed && b.held.Snapshot?
    requires c.value == Pointer(r) && SameBelow(b.held.cells, t, [])
    ensures var g := Poke(h, [], h.next, EMPTY, 1);
            Kept(root, whole, g, h.next, log + [b], items + [c], 0) && Shows(g, h.next, map[])
  {
    hide *;
    var g := Poke(h, [], h.next, EMPTY, 1);
    KeptParts(root, whole, h, r, log, items, 0);
    NewRoot(h, r, t);
    assert whole[|log|] == b;
    forall i | 0 <= i < |log|
      ensures !KeepsFrom(root, whole, i, 0)
    {
      NoneWithoutRoot(root, whole, i, |log|);
    }
    KeptTame(root, whole, h, r, g, h.next, [], r, log, items, 0);
    RouteOfRoot();
    ApartOnceOut(root, whole, h, r, g, h.next, log, items, [], r);
    SameCells(g, h.next, [], r, t, b.held.cells);
    MirrorLoose(g, h.next, b, c);
    KeptAdd(root, whole, g, h.next, log, items, b, c);
  }

  lemma NoneWithoutRoot(root: Entry, whole: seq<Backup>, i: nat, k: nat)
    requires i < k < |whole| && whole[k].held.Snapshot? && whole[k].gpath == []
    ensures !KeepsFrom(root, whole, i, 0)
  {
    assert Undoes(root, whole[k]);
  }

  lemma RouteOfRoot()
    ensures ToRoute([]) == []
  {
  }

  lemma SameCells(h: Heap, r: nat, p: Path, n: nat, t: Tree, cells: Tree)
    requires Loose(h, r, p, n, t) && SameBelow(cells, t, p)
    ensures Loose(h, r, p, n, cells)
  {
    hide Sees, Separate;
  }

  /** One target on the objects is one target on the tree. */
  lemma TakeRefines(root: Entry, write: Writer, whole: seq<Backup>, optype: OpType, st: ObjSt, t: St, x: Target, held: Held,
      value: Value, pushed: bool)
    requires StandsFor(root, whole, st, t) && Writes(root, write) && Fits(x.path, x.value)
    requires Pending(st.heap, st.root, t.tree, optype, x, held, value) && (optype == DELETE ==> !held.Nil?)
    requires One(root, optype, t, x, held, pushed).log <= whole
    ensures StandsFor(root, whole, Take(root, write, optype, st, x, value, pushed), One(root, optype, t, x, held, pushed))
  {
    hide *;
    StandsParts(root, whole, st, t);
    PendingParts(st.heap, st.root, t.tree, optype, x, held, value);
    TakeIs(root, write, optype, st, t, x, held, value, pushed);
    var after := One(root, optype, t, x, held, pushed);
    var done := Take(root, write, optype, st, x, value, pushed);
    if after.log != t.log {
      var h, r, p := st.heap, st.root, x.path;
      KeptParts(root, whole, h, r, t.log, st.log, 0);
      var b, c := Last(after.log), Last(done.log);
      if held.Nil? || optype == UPDATE || (optype == REPLACE && p == [] && x.deletable) {
        NotDetached(optype, x);
        WritesAt(root, write, h, r, p, x.value, t.tree);
        KeptWrite(root, whole, h, r, write(h, r, p, x.value), WriteTyped(root, t.tree, p, x.value), t.log, st.log);
        StaysPointed(h, r, write(h, r, p, x.value), WriteTyped(root, t.tree, p, x.value), p, value);
        StayIn(root, whole, write(h, r, p, x.value), r, t.log, st.log, b, c);
      } else if optype == DELETE && p == [] {
        Detached(optype, x);
        RouteOfRoot();
        LeadsHere(h, [], r, []);
        TakeRoot(root, whole, h, r, t.tree, t.log, st.log, b, c);
      } else if !x.deletable {
        NotDetached(optype, x);
        StayIn(root, whole, h, r, t.log, st.log, b, c);
      } else {
        Detached(optype, x);
        TakeOut(root, whole, h, r, t.tree, t.log, st.log, b, c);
        if optype == REPLACE {
          var g, u := Remove(h, r, p), Delete(t.tree, p);
          KeptParts(root, whole, g, r, after.log, done.log, 0);
          WritesAt(root, write, g, r, p, x.value, u);
          KeptWrite(root, whole, g, r, write(g, r, p, x.value), WriteTyped(root, u, p, x.value), after.log, done.log);
        }
      }
    }
    StandsIf(root, whole, done, after);
  }

  lemma StandsParts(root: Entry, whole: seq<Backup>, st: ObjSt, t: St)
    requires StandsFor(root, whole, st, t)
    ensures Shows(st.heap, st.root, t.tree) && Kept(root, whole, st.heap, st.root, t.log, st.log, 0) && st.failed == t.failed
  {
  }

  lemma StandsIf(root: Entry, whole: seq<Backup>, st: ObjSt, t: St)
    requires Shows(st.heap, st.root, t.tree) && Kept(root, whole, st.heap, st.root, t.log, st.log, 0) && st.failed == t.failed
    ensures StandsFor(root, whole, st, t)
  {
  }

  lemma NotDetached(optype: OpType, x: Target)
    ensures (optype == UPDATE || (optype == REPLACE && x.path == []) || (!x.deletable && !(optype == DELETE && x.path == [])))
            ==> !Detaches(optype, x)
  {
  }

  lemma Detached(optype: OpType, x: Target)
    ensures (optype == DELETE && x.path == []) || (optype != UPDATE && x.path != [] && x.deletable) ==> Detaches(optype, x)
  {
  }

  lemma PendingParts(h: Heap, r: nat, t: Tree, optype: OpType, x: Target, held: Held, value: Value)
    requires Pending(h, r, t, optype, x, held, value)
    ensures held.Nil? <==> value.NoValue?
    ensures value.LeafValue? ==> held.Snapshot? && LeafCells(x.path, value.text, held.cells) && x.path != []
    ensures value.Pointer? ==>
              && Leads(h, [], r, ToRoute(x.path)) == Some(value.n) && !IsLeaf(t, x.path)
              && (Detaches(optype, x) ==> held.Snapshot? && SameBelow(held.cells, t, x.path))
              && (!Detaches(optype, x) ==> held.Live?)
  {
  }

  lemma WritesAt(root: Entry, write: Writer, h: Heap, r: nat, p: Path, d: Decoded, t: Tree)
    requires Writes(root, write) && Sound(h) && ([], r) in h.objs && Shows(h, r, t) && Fits(p, d)
    ensures WroteInPlace(h, r, write(h, r, p, d), WriteTyped(root, t, p, d))
  {
  }

  lemma StaysPointed(h: Heap, r: nat, g: Heap, u: Tree, p: Path, value: Value)
    requires WroteInPlace(h, r, g, u) && (value.Pointer? ==> Leads(h, [], r, ToRoute(p)) == Some(value.n))
    ensures value.Pointer? ==> Leads(g, [], r, ToRoute(p)) == Some(value.n)
  {
    hide Leads, Shows, Tame;
  }

  /** What the two do, side by side. */
  lemma TakeIs(root: Entry, write: Writer, optype: OpType, st: ObjSt, t: St, x: Target, held: Held, value: Value, pushed: bool)
    requires st.failed == t.failed && (held.Nil? <==> value.NoValue?)
    ensures var done, after := Take(root, write, optype, st, x, value, pushed), One(root, optype, t, x, held, pushed);
            && done.failed == after.failed
            && (after.log == t.log ==> done.heap == st.heap && done.root == st.root && done.log == st.log && after.tree == t.tree)
            && (after.log != t.log ==>
                  && after.log == t.log + [Last(after.log)] && done.log == st.log + [Last(done.log)]
                  && Last(after.log) == Backup(optype, x.path, held, !after.failed)
                  && Last(done.log) == Item(optype, x.path, value, !after.failed)
                  && (done.heap, done.root) == Changed(write, optype, st.heap, st.root, x, value.NoValue?)
                  && after.tree == Written(root, optype, t.tree, x, held)
                  && ChangedAlike(root, write, optype, st.heap, st.root, t.tree, x, held, done.heap, done.root, after.tree))
  {
    var after := One(root, optype, t, x, held, pushed);
    assert after.log == t.log || |after.log| == |t.log| + 1;
  }

  ghost predicate ChangedAlike(root: Entry, write: Writer, optype: OpType, h: Heap, r: nat, t: Tree, x: Target, held: Held,
      g: Heap, s: nat, u: Tree)
  {
    if held.Nil? || optype == UPDATE || (optype == REPLACE && x.path == [] && x.deletable) then
      g == write(h, r, x.path, x.value) && s == r && u == WriteTyped(root, t, x.path, x.value)
    else if optype == DELETE && x.path == [] then
      g == Poke(h, [], h.next, EMPTY, 1) && s == h.next && u == map[]
    else if !x.deletable then g == h && s == r && u == t
    else if optype == DELETE then g == Remove(h, r, x.path) && s == r && u == Delete(t, x.path)
    else
      && x.path != [] && g == write(Remove(h, r, x.path), r, x.path, x.value) && s == r
      && u == WriteTyped(root, Delete(t, x.path), x.path, x.value)
  }

  // ---------------------------------------------------------------- the targets of one operation

  /** A field is a leaf or holds a struct, and Get finds what is there. */
  ghost predicate IsThere(h: Heap, r: nat, p: Path) {
    (Sees(h, [], r, p).Some? && Sees(h, [], r, p).value.Leaf?) <==> Leads(h, [], r, ToRoute(p)).None?
  }

  lemma PendingStart(h: Heap, r: nat, t: Tree, optype: OpType, x: Target)
    requires Shows(h, r, t) && IsThere(h, r, x.path)
    ensures Pending(h, r, t, optype, x, Hold(optype, t, x), Fetch(h, r, x.path))
  {
    var p := x.path;
    assert Sees(h, [], r, p) == At(t, p);
    if IsLeaf(t, p) {
      forall q | p <= q
        ensures At(Sub(t, p), q) == At(map[p := t[p]], q)
      {
        if q != p {
          NothingBehindLeaf(h, r, p, q);
          assert Sees(h, [], r, q) == At(t, q);
        }
        hide Leads, Sees, Read;
      }
      LeafPlace(h, r, p);
    }
    hide Leads, Sees;
  }

  lemma NothingBehindLeaf(h: Heap, r: nat, p: Path, q: Path)
    requires Leads(h, [], r, ToRoute(p)).None? && p < q
    ensures Sees(h, [], r, q) == None
  {
    BelowInit(p, q);
    RoutesGrow(p, q);
    RoutesGrow(p, Init(q));
    LeadsSplit(h, [], r, ToRoute(p), ToRoute(q));
    LeadsSplit(h, [], r, ToRoute(p), ToRoute(Init(q)));
    hide Leads, ToRoute;
  }

  lemma LeafPlace(h: Heap, r: nat, p: Path)
    ensures Sees(h, [], r, p).Some? && Sees(h, [], r, p).value.Leaf? ==> p != [] && Last(p).keys == map[]
  {
  }

  /** A list entry that c is right below is there. */
  predicate ParentThere(t: Tree, c: Path) {
    |c| >= 2 && Last(Init(c)).keys != map[] ==> Init(c) in t
  }

  lemma ParentSeen(h: Heap, r: nat, t: Tree, c: Path)
    requires Shows(h, r, t) && Leads(h, [], r, ToRoute(c)).Some?
    ensures ParentThere(t, c)
  {
    if |c| >= 2 && Last(Init(c)).keys != map[] {
      RoutesGrow(Init(c), c);
      LeadsSplit(h, [], r, ToRoute(Init(c)), ToRoute(c));
      assert Sees(h, [], r, Init(c)) == At(t, Init(c));
    }
    hide Leads, ToRoute;
  }

  /** What is there is not touched by what is made on the way to another path. */
  lemma {:induction false} CreateAside(t: Tree, p: Path, c: Path)
    requires !(c <= p) && ParentThere(t, c)
    ensures SameBelow(Create(t, p), t, c)
    decreases |p|
  {
    if p != [] {
      var u := Create(t, Init(p));
      assert !(c <= Init(p));
      CreateAside(t, Init(p), c);
      CreateGrows(t, Init(p));
      if Last(p).keys != map[] && p !in u {
        forall q | c <= q
          ensures At(u + NewEntry(p), q) == At(u, q)
        {
          if q != [] {
            NewEntryIs(p, q);
            BelowInit(c, q);
          }
        }
      }
    }
  }

  lemma WriteAside(root: Entry, t: Tree, p: Path, d: Decoded, c: Path)
    requires !Related(p, c) && ParentThere(t, c)
    ensures SameBelow(WriteTyped(root, t, p, d), t, c)
  {
    var n := DataTree.Reach(root, p);
    CreateAside(t, p[..n], c);
    CreateAside(t, p, c);
    hide Create;
    forall q | c <= q
      ensures At(WriteTyped(root, t, p, d), q) == At(t, q)
    {
      if p <= q {
        SameNodeRelated(p, c, q);
      }
    }
  }

  lemma DeleteAside(t: Tree, p: Path, c: Path)
    requires !Related(p, c)
    ensures SameBelow(Delete(t, p), t, c) && (ParentThere(t, c) ==> ParentThere(Delete(t, p), c))
  {
    forall q | c <= q
      ensures At(Delete(t, p), q) == At(t, q)
    {
      if p <= q {
        SameNodeRelated(p, c, q);
      }
    }
    assert |c| >= 2 && p <= Init(c) ==> p <= c;
  }

  /** A target that is unrelated to the one that is taken stays as Get found it. */
  lemma PendingKept(root: Entry, write: Writer, st: ObjSt, t: St, optype: OpType, x: Target, held: Held, value: Value,
      pushed: bool, y: Target, held': Held, value': Value)
    requires Sound(st.heap) && ([], st.root) in st.heap.objs && Shows(st.heap, st.root, t.tree) && st.failed == t.failed
    requires Writes(root, write) && Fits(x.path, x.value) && (held.Nil? <==> value.NoValue?)
    requires Pending(st.heap, st.root, t.tree, optype, y, held', value')
    requires var after := One(root, optype, t, x, held, pushed); after.log == t.log || !Related(x.path, y.path)
    ensures var done, after := Take(root, write, optype, st, x, value, pushed), One(root, optype, t, x, held, pushed);
            Pending(done.heap, done.root, after.tree, optype, y, held', value')
  {
    hide *;
    TakeIs(root, write, optype, st, t, x, held, value, pushed);
    PendingParts(st.heap, st.root, t.tree, optype, y, held', value');
    var done, after := Take(root, write, optype, st, x, value, pushed), One(root, optype, t, x, held, pushed);
    if after.log != t.log {
      if value'.Pointer? {
        ParentSeen(st.heap, st.root, t.tree, y.path);
        AsideStays(root, write, optype, st.heap, st.root, t.tree, x, held, done.heap, done.root, after.tree, y.path);
      }
      PendingMoved(st.heap, st.root, t.tree, done.heap, done.root, after.tree, optype, y, held', value');
    }
  }

  lemma PendingMoved(h: Heap, r: nat, t: Tree, g: Heap, s: nat, u: Tree, optype: OpType, y: Target, held: Held, value: Value)
    requires Pending(h, r, t, optype, y, held, value)
    requires value.Pointer? ==> Leads(g, [], s, ToRoute(y.path)) == Some(value.n) && SameBelow(u, t, y.path)
    ensures Pending(g, s, u, optype, y, held, value)
  {
    hide Leads;
    if value.Pointer? {
      assert At(u, y.path) == At(t, y.path);
    }
  }

  lemma AsideStays(root: Entry, write: Writer, optype: OpType, h: Heap, r: nat, t: Tree, x: Target, held: Held, g: Heap,
      s: nat, u: Tree, c: Path)
    requires Sound(h) && ([], r) in h.objs && Shows(h, r, t) && Writes(root, write) && Fits(x.path, x.value)
    requires ChangedAlike(root, write, optype, h, r, t, x, held, g, s, u)
    requires !Related(x.path, c) && ParentThere(t, c) && Leads(h, [], r, ToRoute(c)).Some?
    ensures Leads(g, [], s, ToRoute(c)) == Leads(h, [], r, ToRoute(c)) && SameBelow(u, t, c)
  {
    hide Writes, Leads, Sees, Sound, Shows, Remove, ParentThere, WriteTyped, Delete, Fits, WroteInPlace;
    var p := x.path;
    RouteBelow(p, c);
    WriteStays(root, write, h, r, t, p, x.value, c);
    DeleteAside(t, p, c);
    if p != [] {
      RemoveLeads(h, r, p, ToRoute(c));
      RemoveTree(h, r, p);
      TameParts(h, r, Remove(h, r, p), r, [], r);
      RemoveShows(h, r, p, t);
      WriteStays(root, write, Remove(h, r, p), r, Delete(t, p), p, x.value, c);
    }
  }

  lemma WriteStays(root: Entry, write: Writer, h: Heap, r: nat, t: Tree, p: Path, d: Decoded, c: Path)
    requires Sound(h) && ([], r) in h.objs && Shows(h, r, t) && Writes(root, write) && Fits(p, d)
    requires !Related(p, c) && ParentThere(t, c) && Leads(h, [], r, ToRoute(c)).Some?
    ensures Leads(write(h, r, p, d), [], r, ToRoute(c)) == Leads(h, [], r, ToRoute(c))
    ensures SameBelow(WriteTyped(root, t, p, d), t, c)
  {
    hide *;
    WritesAt(root, write, h, r, p, d, t);
    WroteParts(h, r, write(h, r, p, d), WriteTyped(root, t, p, d));
    InPlaceAt(h, r, write(h, r, p, d), ToRoute(c));
    WriteAside(root, t, p, d, c);
  }

  /** The entries of the log from the n-th on are for unrelated targets. */
  ghost predicate NewApart(log: seq<Backup>, n: nat) {
    forall i, j :: n <= i < j < |log| ==> !Related(log[i].gpath, log[j].gpath)
  }

  /** The targets are there, and their values fit. */
  ghost predicate Ready(h: Heap, r: nat, targets: seq<Target>) {
    forall x :: x in targets ==> IsThere(h, r, x.path) && Fits(x.path, x.value)
  }

  lemma NewApartInit(before: seq<Backup>, after: seq<Backup>, n: nat)
    requires NewApart(after, n) && before <= after
    ensures NewApart(before, n)
  {
  }

  /** Targets that are found but not yet taken stay pending. */
  lemma {:induction false} TargetsPending(root: Entry, write: Writer, whole: seq<Backup>, optype: OpType, st: ObjSt, t: St,
      targets: seq<Target>, pushed: seq<bool>, y: Target)
    requires |pushed| == |targets| && StandsFor(root, whole, st, t) && !t.failed && Writes(root, write)
    requires Ready(st.heap, st.root, targets) && IsThere(st.heap, st.root, y.path)
    requires var after := RunTargets(root, optype, t.tree, t, targets, pushed);
             && after.log <= whole && NewApart(after.log, |t.log|)
             && forall i :: |t.log| <= i < |after.log| ==> !Related(after.log[i].gpath, y.path)
    ensures var done := TakeTargets(root, write, optype, st.heap, st.root, st, targets, pushed);
            var after := RunTargets(root, optype, t.tree, t, targets, pushed);
            Pending(done.heap, done.root, after.tree, optype, y, Hold(optype, t.tree, y), Fetch(st.heap, st.root, y.path))
    decreases |targets|, 0
  {
    hide *;
    TargetsSplit(root, write, optype, st, t, targets, pushed);
    StandsParts(root, whole, st, t);
    if targets == [] {
      PendingStart(st.heap, st.root, t.tree, optype, y);
    } else {
      var x := Last(targets);
      InitLast(targets);
      InitLast(pushed);
      var before := RunTargets(root, optype, t.tree, t, Init(targets), Init(pushed));
      var after := RunTargets(root, optype, t.tree, t, targets, pushed);
      var mid := TakeTargets(root, write, optype, st.heap, st.root, st, Init(targets), Init(pushed));
      LogsGrow(root, optype, t, targets, pushed);
      ReadyParts(st.heap, st.root, targets);
      NewApartInit(before.log, after.log, |t.log|);
      TargetsRefine(root, write, whole, optype, st, t, Init(targets), Init(pushed));
      TargetsPending(root, write, whole, optype, st, t, Init(targets), Init(pushed), y);
      StandsParts(root, whole, mid, before);
      KeptParts(root, whole, mid.heap, mid.root, before.log, mid.log, 0);
      if !before.failed {
        HeldAlike(st.heap, st.root, t.tree, optype, x);
        PendingKept(root, write, mid, before, optype, x, Hold(optype, t.tree, x), Fetch(st.heap, st.root, x.path), Last(pushed),
                    y, Hold(optype, t.tree, y), Fetch(st.heap, st.root, y.path));
      }
    }
  }

  lemma {:induction false} TargetsRefine(root: Entry, write: Writer, whole: seq<Backup>, optype: OpType, st: ObjSt, t: St,
      targets: seq<Target>, pushed: seq<bool>)
    requires |pushed| == |targets| && StandsFor(root, whole, st, t) && !t.failed && Writes(root, write)
    requires Ready(st.heap, st.root, targets)
    requires var after := RunTargets(root, optype, t.tree, t, targets, pushed);
             after.log <= whole && NewApart(after.log, |t.log|)
    ensures var done := TakeTargets(root, write, optype, st.heap, st.root, st, targets, pushed);
            StandsFor(root, whole, done, RunTargets(root, optype, t.tree, t, targets, pushed))
    decreases |targets|, 1
  {
    hide *;
    TargetsSplit(root, write, optype, st, t, targets, pushed);
    if targets != [] {
      var x := Last(targets);
      InitLast(targets);
      InitLast(pushed);
      var before := RunTargets(root, optype, t.tree, t, Init(targets), Init(pushed));
      var after := RunTargets(root, optype, t.tree, t, targets, pushed);
      var mid := TakeTargets(root, write, optype, st.heap, st.root, st, Init(targets), Init(pushed));
      LogsGrow(root, optype, t, targets, pushed);
      ReadyParts(st.heap, st.root, targets);
      NewApartInit(before.log, after.log, |t.log|);
      TargetsRefine(root, write, whole, optype, st, t, Init(targets), Init(pushed));
      StandsParts(root, whole, mid, before);
      if !before.failed {
        var held, value := Hold(optype, t.tree, x), Fetch(st.heap, st.root, x.path);
        StandsParts(root, whole, st, t);
        HeldAlike(st.heap, st.root, t.tree, optype, x);
        if after.log == before.log {
          TakeNothing(root, write, whole, optype, mid, before, x, held, value, Last(pushed));
        } else {
          LastApartFrom(after.log, |t.log|, before.log, x.path);
          TargetsPending(root, write, whole, optype, st, t, Init(targets), Init(pushed), x);
          TakeRefines(root, write, whole, optype, mid, before, x, held, value, Last(pushed));
        }
      }
    }
  }

  lemma TakeNothing(root: Entry, write: Writer, whole: seq<Backup>, optype: OpType, st: ObjSt, t: St, x: Target, held: Held,
      value: Value, pushed: bool)
    requires StandsFor(root, whole, st, t) && (held.Nil? <==> value.NoValue?)
    requires One(root, optype, t, x, held, pushed).log == t.log
    ensures StandsFor(root, whole, Take(root, write, optype, st, x, value, pushed), One(root, optype, t, x, held, pushed))
  {
    hide *;
    StandsParts(root, whole, st, t);
    TakeIs(root, write, optype, st, t, x, held, value, pushed);
    StandsIf(root, whole, Take(root, write, optype, st, x, value, pushed), One(root, optype, t, x, held, pushed));
  }

  lemma HeldAlike(h: Heap, r: nat, t: Tree, optype: OpType, x: Target)
    requires Shows(h, r, t) && IsThere(h, r, x.path)
    ensures Hold(optype, t, x).Nil? <==> Fetch(h, r, x.path).NoValue?
    ensures !Hold(optype, t, x).Nil?
  {
    PendingStart(h, r, t, optype, x);
    hide Fetch, Shows, IsThere, Detaches;
  }

  lemma ReadyParts(h: Heap, r: nat, targets: seq<Target>)
    requires targets != [] && Ready(h, r, targets)
    ensures Ready(h, r, Init(targets)) && IsThere(h, r, Last(targets).path) && Fits(Last(targets).path, Last(targets).value)
  {
    hide IsThere, Fits;
    assert Last(targets) in targets && forall x :: x in Init(targets) ==> x in targets;
  }

  lemma LastApartFrom(log: seq<Backup>, n: nat, before: seq<Backup>, p: Path)
    requires NewApart(log, n) && |log| == |before| + 1 && before <= log && Last(log).gpath == p
    ensures forall i :: n <= i < |before| ==> !Related(before[i].gpath, p)
  {
    hide Related;
    assert log[|before|] == Last(log);
  }

  /** One target more, on both sides. */
  lemma TargetsSplit(root: Entry, write: Writer, optype: OpType, st: ObjSt, t: St, targets: seq<Target>, pushed: seq<bool>)
    requires |pushed| == |targets|
    ensures targets == [] ==>
              && TakeTargets(root, write, optype, st.heap, st.root, st, targets, pushed) == st
              && RunTargets(root, optype, t.tree, t, targets, pushed) == t
    ensures targets != [] ==>
              var before := RunTargets(root, optype, t.tree, t, Init(targets), Init(pushed));
              var mid := TakeTargets(root, write, optype, st.heap, st.root, st, Init(targets), Init(pushed));
              && RunTargets(root, optype, t.tree, t, targets, pushed)
                 == (if before.failed then before
                     else One(root, optype, before, Last(targets), Hold(optype, t.tree, Last(targets)), Last(pushed)))
              && TakeTargets(root, write, optype, st.heap, st.root, st, targets, pushed)
                 == (if mid.failed then mid
                     else Take(root, write, optype, mid, Last(targets), Fetch(st.heap, st.root, Last(targets).path), Last(pushed)))
  {
    hide One, Take, Hold, Fetch;
  }

  lemma LogsGrow(root: Entry, optype: OpType, t: St, targets: seq<Target>, pushed: seq<bool>)
    requires |pushed| == |targets| && targets != []
    ensures var before := RunTargets(root, optype, t.tree, t, Init(targets), Init(pushed));
            var after := RunTargets(root, optype, t.tree, t, targets, pushed);
            && t.log <= before.log <= after.log
            && (after.log != before.log ==>
                  && |after.log| == |before.log| + 1 && Last(after.log).gpath == Last(targets).path
                  && after.log[|before.log|] == Last(after.log))
  {
    TargetsGrowLog(root, optype, t.tree, t, Init(targets), Init(pushed));
    hide Hold, Written, WritesOk;
  }

  // ---------------------------------------------------------------- a whole request

  /** The targets of the operation are there when it starts, and its values fit. */
  ghost predicate OpReady(h: Heap, r: nat, op: Op) {
    Ready(h, r, op.targets) && Fits(op.full.path, op.full.value)
  }

  /** That holds for every operation that is reached, and the targets that it logs are unrelated to each other. */
  ghost predicate RunReady(root: Entry, write: Writer, st: ObjSt, t: St, ops: seq<Op>)
    requires forall op :: op in ops ==> WellFormed(op)
  {
    ops != [] ==>
      var mid, before := TakeOps(root, write, st, Init(ops)), RunOps(root, t, Init(ops));
      && RunReady(root, write, st, t, Init(ops))
      && (before.failed || (OpReady(mid.heap, mid.root, Last(ops)) && NewApart(RunOp(root, before, Last(ops)).log, |before.log|)))
  }

  lemma OpRefines(root: Entry, write: Writer, whole: seq<Backup>, st: ObjSt, t: St, op: Op)
    requires WellFormed(op) && StandsFor(root, whole, st, t) && !t.failed && Writes(root, write) && OpReady(st.heap, st.root, op)
    requires RunOp(root, t, op).log <= whole && NewApart(RunOp(root, t, op).log, |t.log|)
    ensures StandsFor(root, whole, TakeOp(root, write, st, op), RunOp(root, t, op))
  {
    hide StandsFor, Writes, NewApart, RunTargets, TakeTargets, One, Take, IsThere, Fits;
    if op.targets != [] {
      TargetsRefine(root, write, whole, op.optype, st, t, op.targets, op.pushed);
    } else if op.optype != DELETE {
      PendingNil(st.heap, st.root, t.tree, op.optype, op.full);
      TakeRefines(root, write, whole, op.optype, st, t, op.full, Nil, NoValue, op.pushedNew);
    }
  }

  lemma PendingNil(h: Heap, r: nat, t: Tree, optype: OpType, x: Target)
    ensures Pending(h, r, t, optype, x, Nil, NoValue)
  {
  }

  lemma {:induction false} RunRefines(root: Entry, write: Writer, whole: seq<Backup>, st: ObjSt, t: St, ops: seq<Op>)
    requires (forall op :: op in ops ==> WellFormed(op)) && StandsFor(root, whole, st, t) && Writes(root, write)
    requires RunReady(root, write, st, t, ops) && RunOps(root, t, ops).log <= whole
    ensures StandsFor(root, whole, TakeOps(root, write, st, ops), RunOps(root, t, ops))
  {
    hide StandsFor, Writes, NewApart, RunOp, TakeOp, OpReady, WellFormed;
    if ops != [] {
      var before, mid := RunOps(root, t, Init(ops)), TakeOps(root, write, st, Init(ops));
      if !before.failed {
        OpGrowsLog(root, before, Last(ops));
      }
      RunRefines(root, write, whole, st, t, Init(ops));
      StandsParts(root, whole, mid, before);
      if !before.failed {
        OpRefines(root, write, whole, mid, before, Last(ops));
      }
    }
  }

  /** Before the first operation there is nothing in the log. */
  lemma StandsAtFirst(root: Entry, whole: seq<Backup>, h: Heap, r: nat, t: Tree)
    requires Sound(h) && ([], r) in h.objs && Shows(h, r, t)
    ensures StandsFor(root, whole, ObjSt(h, r, [], false), St(t, [], false))
  {
    hide Sees, Sound;
  }

  /** Every request that runs on the objects runs on the tree in the same way, and so does its rollback, as long as
      updated structs keep their place. */
  lemma RequestRefines(root: Entry, write: Writer, h: Heap, r: nat, t0: Tree, ops: seq<Op>)
    requires (forall op :: op in ops ==> WellFormed(op)) && Sound(h) && ([], r) in h.objs && Shows(h, r, t0)
    requires Writes(root, write) && RunReady(root, write, ObjSt(h, r, [], false), St(t0, [], false), ops)
    ensures var done, st := TakeOps(root, write, ObjSt(h, r, [], false), ops), RunOps(root, St(t0, [], false), ops);
            && done.failed == st.failed && |done.log| == |st.log| && Shows(done.heap, done.root, st.tree)
            && (AllKeepPlace(root, st.log) ==>
                  var after := RevertAll(root, done.heap, done.root, done.log);
                  && Shows(after, done.root, UndoAll(root, st.tree, st.log)) && Sound(after) && ([], done.root) in after.objs)
  {
    hide *;
    var done, st := TakeOps(root, write, ObjSt(h, r, [], false), ops), RunOps(root, St(t0, [], false), ops);
    StandsAtFirst(root, st.log, h, r, t0);
    RunRefines(root, write, st.log, ObjSt(h, r, [], false), St(t0, [], false), ops);
    StandsParts(root, st.log, done, st);
    KeptParts(root, st.log, done.heap, done.root, st.log, done.log, 0);
    if AllKeepPlace(root, st.log) {
      RevertRefines(root, done.heap, done.root, st.tree, st.log, done.log);
    }
  }
}
