/** What the pushes of a Set request are for: an external store that held the leaves of the tree before the request holds
    those of the tree that the request wrote, and the same for the walk back. Stated leaf by leaf, so targets may lie
    anywhere. */
module PushLaw {
  import opened Text
  import opened PathText
  import opened Schema
  import opened DataTree
  import opened Transaction
  import opened Rollback
  import opened Objects
  import opened ObjectSet
  import opened ObjectRun
  import opened PushSync
  import opened PushTrace
  import S = StateConfig

  function LeafText(t: Tree, q: Path): Option<string> {
    if q in t && t[q].Leaf? then Some(t[q].value) else None
  }

  /** At the leaf q the store holds what the tree has there. */
  ghost predicate InStep(text: Path -> string, data: S.Data, t: Tree, q: Path) {
    At(data, text(q)) == LeafText(t, q)
  }

  // ---------------------------------------------------------------- what is taken of the schema, ListAll and the store

  /** Leaves have no keys and nothing below them, and different texts. */
  ghost predicate SchemaLeaves(leafs: Path -> bool, text: Path -> string) {
    && (forall q :: leafs(q) ==> q != [] && Last(q).keys == map[])
    && (forall p, q :: leafs(p) && p < q ==> !leafs(q))
    && (forall p, q :: leafs(p) && leafs(q) && text(p) == text(q) ==> p == q)
  }

  /** ListAll lists exactly the leaves below a path, besides nodes that are no leaves; and a store that deletes a node that
      is listed takes away nothing but what is below that path. */
  ghost predicate ListsLeaves(w: World, leafs: Path -> bool) {
    && (forall t, p, q :: leafs(q) ==> S.LastValue(w.below(t, p), w.text(q)) == if p < q then LeafText(t, q) else None)
    && (forall t, p, q, n :: leafs(q) && n in w.below(t, p) && w.removes(n.path, w.text(q)) ==> p < q)
  }

  /** The tree has leaves only where the schema has. */
  ghost predicate Typed(leafs: Path -> bool, t: Tree) {
    forall q :: q in t && t[q].Leaf? ==> leafs(q)
  }

  /** And so have a decoded value and the list entries on the way to its target. */
  ghost predicate TypedTarget(leafs: Path -> bool, x: Target) {
    && (forall q :: q in x.value.cells && x.path <= q && x.value.cells[q].Leaf? ==> leafs(q))
    && (forall q :: OnTheWay(x.path, q) && Fresh(q).Leaf? ==> leafs(q))
  }

  // ---------------------------------------------------------------- one push

  /** The nodes of an old container with this content, if it is one. */
  function Listed(w: World, c: Option<Tree>, p: Path): seq<S.Node> {
    if c.None? then [] else w.below(c.value, p)
  }

  function AfterPush(w: World, data: S.Data, u: Tree, c: Option<Tree>, p: Path): S.Data {
    S.AfterAll(data, S.Script(Listed(w, c, p), NewNodes(w.below, w.text, u, p)), w.removes)
  }

  lemma ListedLeaves(w: World, leafs: Path -> bool, c: Option<Tree>, p: Path, q: Path)
    requires SchemaLeaves(leafs, w.text) && ListsLeaves(w, leafs) && leafs(q)
    ensures w.text(q) in S.Paths(Listed(w, c, p)) <==> c.Some? && p < q && LeafText(c.value, q).Some?
  {
    S.LastValueListed(Listed(w, c, p), w.text(q));
    if c.Some? {
      assert S.LastValue(w.below(c.value, p), w.text(q)) == if p < q then LeafText(c.value, q) else None;
    }
    hide S.LastValue;
  }

  lemma NewLeaves(w: World, leafs: Path -> bool, u: Tree, p: Path, q: Path)
    requires SchemaLeaves(leafs, w.text) && ListsLeaves(w, leafs) && leafs(q) && Typed(leafs, u)
    ensures S.LastValue(NewNodes(w.below, w.text, u, p), w.text(q)) == if p <= q then LeafText(u, q) else None
  {
    if IsLeaf(u, p) {
      var n := S.Node(w.text(p), u[p].value);
      assert leafs(p) && Last([n]) == n && Init([n]) == [];
    } else {
      assert S.LastValue(w.below(u, p), w.text(q)) == if p < q then LeafText(u, q) else None;
      assert p <= q <==> p < q || p == q;
      assert p == q ==> LeafText(u, q) == None;
    }
  }

  lemma TakenAway(w: World, leafs: Path -> bool, c: Option<Tree>, keep: set<string>, p: Path, q: Path)
    requires SchemaLeaves(leafs, w.text) && ListsLeaves(w, leafs) && leafs(q)
    ensures S.Dropped(Listed(w, c, p), keep, w.text(q), w.removes) ==> p < q
    ensures c.Some? && p < q && LeafText(c.value, q).Some? && w.text(q) !in keep
            ==> S.Dropped(Listed(w, c, p), keep, w.text(q), w.removes)
  {
    ListedLeaves(w, leafs, c, p, q);
    var cur := Listed(w, c, p);
    if S.Dropped(cur, keep, w.text(q), w.removes) {
      var n :| n in cur && n.path !in keep && S.Takes(n.path, w.text(q), w.removes);
      assert n.path == w.text(q) ==> w.text(q) in S.Paths(cur);
    }
    if w.text(q) in S.Paths(cur) && w.text(q) !in keep {
      var n :| n in cur && n.path == w.text(q);
      assert S.Takes(n.path, w.text(q), w.removes);
    }
  }

  /** After one push for p a leaf is in step: below p if it is there, or was not, or is listed for the old value; p itself
      unless it was a leaf and is none any more; any other exactly if the tree has not changed there. */
  lemma PushedAt(w: World, leafs: Path -> bool, data: S.Data, t: Tree, u: Tree, c: Option<Tree>, p: Path, q: Path)
    requires SchemaLeaves(leafs, w.text) && ListsLeaves(w, leafs) && leafs(q) && Typed(leafs, u) && InStep(w.text, data, t, q)
    ensures var after := AfterPush(w, data, u, c, p);
            && (p < q && (LeafText(u, q).Some? || LeafText(t, q).None? || (c.Some? && LeafText(c.value, q).Some?))
                ==> InStep(w.text, after, u, q))
            && (p == q ==> (InStep(w.text, after, u, q) <==> LeafText(u, q).Some? || LeafText(t, q).None?))
            && (!(p <= q) ==> (InStep(w.text, after, u, q) <==> LeafText(u, q) == LeafText(t, q)))
  {
    hide *;
    var cur, new_ := Listed(w, c, p), NewNodes(w.below, w.text, u, p);
    AfterPushIs(w, data, u, c, p);
    S.ScriptEffect(data, cur, new_, w.text(q), w.removes);
    S.LastValueListed(new_, w.text(q));
    NewLeaves(w, leafs, u, p, q);
    TakenAway(w, leafs, c, S.Paths(new_), p, q);
    InStepIs(w.text, data, t, q);
    InStepIs(w.text, AfterPush(w, data, u, c, p), u, q);
  }

  lemma AfterPushIs(w: World, data: S.Data, u: Tree, c: Option<Tree>, p: Path)
    ensures AfterPush(w, data, u, c, p) == S.AfterAll(data, S.Script(Listed(w, c, p), NewNodes(w.below, w.text, u, p)), w.removes)
  {
  }

  lemma InStepIs(text: Path -> string, data: S.Data, t: Tree, q: Path)
    ensures InStep(text, data, t, q) <==> At(data, text(q)) == LeafText(t, q)
  {
  }

  // ---------------------------------------------------------------- what a target does to the leaves

  lemma TypedAt(root: Entry, t: Tree, p: Path, d: Decoded, q: Path)
    requires Descend(root, Names(p)).Some?
    ensures At(WriteTyped(root, t, p, d), q)
            == if p <= q && q in d.cells then Some(d.cells[q])
               else if OnTheWay(p, q) && Owner(q) !in t then Some(Fresh(q))
               else At(t, q)
  {
    CreateAt(t, p, q);
    hide Create, OnTheWay, Fresh;
  }

  /** On the tree, as in the transaction. */
  function After(root: Entry, optype: OpType, t: Tree, x: Target, hasOld: bool): Tree {
    Written(root, optype, t, x, if hasOld then Live else Nil)
  }

  lemma AfterIs(root: Entry, optype: OpType, t: Tree, x: Target, hasOld: bool)
    requires !CannotChange(root, optype, x, hasOld) && (optype == DELETE ==> hasOld)
    ensures After(root, optype, t, x, hasOld)
            == if optype == DELETE then Delete(t, x.path)
               else WriteTyped(root, if optype == REPLACE && hasOld && x.path != [] then Delete(t, x.path) else t, x.path, x.value)
    ensures optype != DELETE ==> Descend(root, Names(x.path)).Some?
  {
    assert x.path == [] ==> Delete(t, x.path) == map[];
  }

  /** An owner is not below a path that does not lead to what it owns. */
  lemma OwnerAbove(p: Path, q: Path)
    requires ComesWithEntry(q) && p <= Owner(q)
    ensures p <= q
  {
  }

  /** The leaf q is changed by a target only at its path or below, or as the key leaf of a new list entry. */
  lemma LeafElsewhere(root: Entry, optype: OpType, t: Tree, x: Target, hasOld: bool, q: Path)
    requires !CannotChange(root, optype, x, hasOld) && (optype == DELETE ==> hasOld)
    requires !(x.path <= q) && (OnTheWay(x.path, q) ==> Owner(q) in t)
    ensures At(After(root, optype, t, x, hasOld), q) == At(t, q)
  {
    hide Delete, WriteTyped, After, Owner;
    AfterIs(root, optype, t, x, hasOld);
    DeleteAt(t, x.path, q);
    if optype != DELETE {
      TypedAt(root, t, x.path, x.value, q);
      TypedAt(root, Delete(t, x.path), x.path, x.value, q);
      if OnTheWay(x.path, q) {
        DeleteAt(t, x.path, Owner(q));
        if x.path <= Owner(q) {
          OwnerAbove(x.path, q);
        }
        assert At(t, Owner(q)) == if Owner(q) in t then Some(t[Owner(q)]) else None;
      }
    }
  }

  /** What an operation that takes nothing out had, it still has. */
  lemma LeafStays(root: Entry, optype: OpType, t: Tree, x: Target, hasOld: bool, q: Path)
    requires !CannotChange(root, optype, x, hasOld) && optype != DELETE && (optype == REPLACE ==> !hasOld || x.path == [])
    requires Fits(x.path, x.value) && q != [] && Last(q).keys == map[]
    ensures LeafText(t, q).Some? ==> LeafText(After(root, optype, t, x, hasOld), q).Some?
  {
    hide WriteTyped, After, Owner, NewEntry, EntryThere;
    AfterIs(root, optype, t, x, hasOld);
    TypedAt(root, t, x.path, x.value, q);
    if ComesWithEntry(q) {
      FreshLeaf(q);
    }
    assert At(t, q) == if q in t then Some(t[q]) else None;
  }

  lemma FreshLeaf(q: Path)
    requires q != [] && Last(q).keys == map[] && ComesWithEntry(q)
    ensures Fresh(q).Leaf?
  {
    InNewEntry(Owner(q), q);
  }

  lemma AfterTyped(root: Entry, leafs: Path -> bool, optype: OpType, t: Tree, x: Target, hasOld: bool)
    requires !CannotChange(root, optype, x, hasOld) && (optype == DELETE ==> hasOld)
    requires Typed(leafs, t) && TypedTarget(leafs, x)
    ensures Typed(leafs, After(root, optype, t, x, hasOld))
  {
    hide WriteTyped, After, OnTheWay, Fresh;
    AfterIs(root, optype, t, x, hasOld);
    var u := After(root, optype, t, x, hasOld);
    forall q | q in u && u[q].Leaf?
      ensures leafs(q)
    {
      assert At(u, q) == Some(u[q]);
      DeleteAt(t, x.path, q);
      assert At(t, q) == if q in t then Some(t[q]) else None;
      if optype != DELETE {
        TypedAt(root, t, x.path, x.value, q);
        TypedAt(root, Delete(t, x.path), x.path, x.value, q);
      }
      hide Delete;
    }
  }

  // ---------------------------------------------------------------- such lists there are

  /** The leaves of t among these paths, one node each. */
  ghost function LeafNodes(t: Tree, text: Path -> string, todo: set<Path>): seq<S.Node>
    requires forall q :: q in todo ==> q in t && t[q].Leaf?
  {
    if todo == {} then []
    else
      var q :| q in todo;
      LeafNodes(t, text, todo - {q}) + [S.Node(text(q), t[q].value)]
  }

  lemma {:induction false} LeafNodesAt(t: Tree, leafs: Path -> bool, text: Path -> string, todo: set<Path>, q: Path)
    requires SchemaLeaves(leafs, text) && leafs(q) && forall p :: p in todo ==> p in t && t[p].Leaf? && leafs(p)
    ensures S.LastValue(LeafNodes(t, text, todo), text(q)) == if q in todo then Some(t[q].value) else None
    decreases |todo|
  {
    if todo != {} {
      var p :| p in todo && LeafNodes(t, text, todo) == LeafNodes(t, text, todo - {p}) + [S.Node(text(p), t[p].value)];
      LeafNodesAt(t, leafs, text, todo - {p}, q);
      assert Init(LeafNodes(t, text, todo)) == LeafNodes(t, text, todo - {p});
      assert p == q || text(p) != text(q);
    }
  }

  ghost function LeavesBelow(t: Tree, leafs: Path -> bool, p: Path): set<Path> {
    set q | q in t && t[q].Leaf? && leafs(q) && p < q
  }

  /** What is taken of ListAll and the store can be met. */
  lemma ListerExists(w: World, leafs: Path -> bool)
    requires SchemaLeaves(leafs, w.text)
    ensures exists v: World :: v.root == w.root && v.write == w.write && v.text == w.text && v.answers == w.answers && ListsLeaves(v, leafs)
  {
    ghost var below := (t: Tree, p: Path) => LeafNodes(t, w.text, LeavesBelow(t, leafs, p));
    var v := w.(below := below, removes := (_, _) => false);
    forall t: Tree, p: Path, q: Path | leafs(q)
      ensures S.LastValue(v.below(t, p), v.text(q)) == if p < q then LeafText(t, q) else None
    {
      LeafNodesAt(t, leafs, w.text, LeavesBelow(t, leafs, p), q);
    }
    assert ListsLeaves(v, leafs);
  }

  // ---------------------------------------------------------------- the same on the structs

  lemma ChangedShows(w: World, optype: OpType, h: Heap, r: nat, t: Tree, x: Target, hasOld: bool)
    requires Sound(h) && ([], r) in h.objs && Shows(h, r, t) && Writes(w.root, w.write) && Fits(x.path, x.value)
    requires !CannotChange(w.root, optype, x, hasOld) && (optype == DELETE ==> hasOld)
    ensures var (g, s) := Changed(w.write, optype, h, r, x, !hasOld);
            && Shows(g, s, After(w.root, optype, t, x, hasOld)) && Sound(g) && ([], s) in g.objs
    ensures var (g, s) := Changed(w.write, optype, h, r, x, !hasOld);
            optype != DELETE && (optype == REPLACE ==> !hasOld || x.path == []) ==> s == r && InPlace(h, r, g)
  {
    hide *;
    AfterIs(w.root, optype, t, x, hasOld);
    ChangedIs(w, optype, h, r, x, hasOld);
    if optype == DELETE {
      if x.path == [] {
        NewRoot(h, r, t);
        TameParts(h, r, Poke(h, [], h.next, EMPTY, 1), h.next, [], r);
        DeleteRoot(t);
      } else {
        RemoveTree(h, r, x.path);
        TameParts(h, r, Remove(h, r, x.path), r, [], r);
        RemoveShows(h, r, x.path, t);
      }
    } else if optype == REPLACE && hasOld && x.path != [] {
      var g := Remove(h, r, x.path);
      RemoveTree(h, r, x.path);
      TameParts(h, r, g, r, [], r);
      RemoveShows(h, r, x.path, t);
      WrittenInPlace(w, g, r, x, Delete(t, x.path));
    } else {
      WrittenInPlace(w, h, r, x, t);
    }
  }

  lemma ChangedIs(w: World, optype: OpType, h: Heap, r: nat, x: Target, hasOld: bool)
    requires !CannotChange(w.root, optype, x, hasOld) && (optype == DELETE ==> hasOld)
    ensures Changed(w.write, optype, h, r, x, !hasOld)
            == if optype == DELETE then if x.path == [] then (Poke(h, [], h.next, EMPTY, 1), h.next) else (Remove(h, r, x.path), r)
               else (w.write(if optype == REPLACE && hasOld && x.path != [] then Remove(h, r, x.path) else h, r, x.path, x.value), r)
  {
  }

  lemma DeleteRoot(t: Tree)
    ensures Delete(t, []) == map[]
  {
  }

  lemma WrittenInPlace(w: World, h: Heap, r: nat, x: Target, t: Tree)
    requires Sound(h) && ([], r) in h.objs && Shows(h, r, t) && Writes(w.root, w.write) && Fits(x.path, x.value)
    ensures var g := w.write(h, r, x.path, x.value);
            && Shows(g, r, WriteTyped(w.root, t, x.path, x.value)) && Sound(g) && ([], r) in g.objs && InPlace(h, r, g)
            && Tame(h, r, g, r, [], r)
  {
    hide Shows, Tame, InPlace, Sound, Fits, WriteTyped;
    var g := w.write(h, r, x.path, x.value);
    assert WroteInPlace(h, r, g, WriteTyped(w.root, t, x.path, x.value));
    TameParts(h, r, g, r, [], r);
  }

  /** A struct that is taken out still has what the tree had. */
  lemma OldContent(w: World, optype: OpType, h: Heap, r: nat, t: Tree, x: Target, n: nat)
    requires Sound(h) && ([], r) in h.objs && Shows(h, r, t) && Writes(w.root, w.write) && Fits(x.path, x.value)
    requires !CannotChange(w.root, optype, x, true) && (optype == DELETE || (optype == REPLACE && x.path != []))
    requires Leads(h, [], r, ToRoute(x.path)) == Some(n) && !IsLeaf(t, x.path)
    ensures var (g, s) := Changed(w.write, optype, h, r, x, false);
            forall q :: x.path < q ==> LeafText(TreeFrom(g, ToRoute(x.path), n), q) == LeafText(t, q)
  {
    hide *;
    var p := x.path;
    var (g, s) := Changed(w.write, optype, h, r, x, false);
    ChangedIs(w, optype, h, r, x, true);
    SameBelowItself(t, p);
    if p == [] {
      NewRoot(h, r, t);
      TameParts(h, r, g, s, [], r);
      RootRoute();
      LeadsHere(h, [], r, []);
    } else {
      var f := Remove(h, r, p);
      TakenOutLoose(h, r, p, n, t, t);
      RemoveTree(h, r, p);
      TameParts(h, r, f, r, [], r);
      if optype == REPLACE {
        RemoveShows(h, r, p, t);
        WrittenInPlace(w, f, r, x, Delete(t, p));
        LooseApart(f, r, p, n, t);
        LooseKept(f, r, g, r, [], r, p, n, t);
      }
    }
    LooseLeaves(g, s, p, n, t);
  }

  lemma RootRoute()
    ensures ToRoute([]) == []
  {
  }

  lemma SameBelowItself(t: Tree, p: Path)
    ensures SameBelow(t, t, p)
  {
  }

  lemma LooseApart(h: Heap, r: nat, p: Path, n: nat, cells: Tree)
    requires Loose(h, r, p, n, cells)
    ensures Separate(h, [], r, ToRoute(p), n)
  {
  }

  lemma LooseLeaves(g: Heap, s: nat, p: Path, n: nat, t: Tree)
    requires Sound(g) && Loose(g, s, p, n, t)
    ensures forall q :: p < q ==> LeafText(TreeFrom(g, ToRoute(p), n), q) == LeafText(t, q)
  {
    hide TreeFrom, Separate, Sound;
    TreeAt(g, ToRoute(p), n);
    hide Sees;
    forall q | p < q
      ensures LeafText(TreeFrom(g, ToRoute(p), n), q) == LeafText(t, q)
    {
      assert At(TreeFrom(g, ToRoute(p), n), q) == At(t, q);
    }
  }

  /** The old value is still what is there, up to the text of a leaf. */
  predicate SameOld(a: Value, b: Value) {
    a == b || (a.LeafValue? && b.LeafValue?)
  }

  lemma FetchIs(h: Heap, r: nat, t: Tree, p: Path)
    requires Shows(h, r, t)
    ensures Fetch(h, r, p).LeafValue? <==> IsLeaf(t, p)
    ensures Fetch(h, r, p).Pointer? ==> Leads(h, [], r, ToRoute(p)) == Some(Fetch(h, r, p).n)
    ensures !Fetch(h, r, p).LeafValue? ==>
              Fetch(h, r, p) == var n := Leads(h, [], r, ToRoute(p)); if n.None? then NoValue else Pointer(n.value)
  {
    assert Sees(h, [], r, p) == At(t, p);
    hide Leads, Sees;
  }

  /** Exactly when a leaf that was in step is so after a target and its push. */
  lemma TargetInStep(w: World, leafs: Path -> bool, optype: OpType, h: Heap, r: nat, t: Tree, x: Target, value: Value,
      e: Outside, f: Outside, q: Path)
    requires Sound(h) && ([], r) in h.objs && Shows(h, r, t) && Writes(w.root, w.write) && Fits(x.path, x.value)
    requires !CannotChange(w.root, optype, x, !value.NoValue?) && (optype == DELETE ==> !value.NoValue?)
    requires value.NoValue? || SameOld(value, Fetch(h, r, x.path))
    requires SchemaLeaves(leafs, w.text) && ListsLeaves(w, leafs) && Typed(leafs, t) && TypedTarget(leafs, x) && leafs(q)
    requires e.Store? && InStep(w.text, e.data, t, q)
    requires var (g, s) := Changed(w.write, optype, h, r, x, value.NoValue?); TargetTold(w, optype, g, s, x, value, true, e, f)
    ensures var u := After(w.root, optype, t, x, !value.NoValue?);
            && f.Store?
            && (InStep(w.text, f.data, u, q)
                <==> && (x.path == q ==> LeafText(u, q).Some? || LeafText(t, q).None?)
                     && (!(x.path <= q) ==> LeafText(u, q) == LeafText(t, q)))
  {
    hide *;
    var p := x.path;
    var (g, s) := Changed(w.write, optype, h, r, x, value.NoValue?);
    var u := After(w.root, optype, t, x, !value.NoValue?);
    ChangedShows(w, optype, h, r, t, x, !value.NoValue?);
    ShownIs(g, s, u);
    AfterTyped(w.root, leafs, optype, t, x, !value.NoValue?);
    FetchIs(h, r, t, p);
    SameOldIs(value, Fetch(h, r, p));
    LeafIs(leafs, w.text, q);
    var c := if value.Pointer? then Some(TreeFrom(g, ToRoute(p), value.n)) else None;
    ToldIs(w, optype, g, s, x, value, e, f, u, c);
    PushedAt(w, leafs, e.data, t, u, c, p, q);
    if p < q {
      if value.LeafValue? {
        NothingBelowLeaf(leafs, w.text, t, p, q);
        assert false;
      } else if value.Pointer? && (optype == DELETE || (optype == REPLACE && p != [])) {
        OldContent(w, optype, h, r, t, x, value.n);
      } else {
        LeafStays(w.root, optype, t, x, !value.NoValue?, q);
      }
    }
  }

  /** The key leaf of a list entry that is made on the way to a target is not pushed: the store is out of step there. */
  lemma NewEntryOutOfStep(w: World, leafs: Path -> bool, optype: OpType, h: Heap, r: nat, t: Tree, x: Target, value: Value,
      e: Outside, f: Outside, q: Path)
    requires Sound(h) && ([], r) in h.objs && Shows(h, r, t) && Writes(w.root, w.write) && Fits(x.path, x.value)
    requires !CannotChange(w.root, optype, x, !value.NoValue?) && optype != DELETE
    requires value.NoValue? || SameOld(value, Fetch(h, r, x.path))
    requires SchemaLeaves(leafs, w.text) && ListsLeaves(w, leafs) && Typed(leafs, t) && TypedTarget(leafs, x) && leafs(q)
    requires e.Store? && InStep(w.text, e.data, t, q)
    requires var (g, s) := Changed(w.write, optype, h, r, x, value.NoValue?); TargetTold(w, optype, g, s, x, value, true, e, f)
    requires OnTheWay(x.path, q) && !(x.path <= q) && Owner(q) !in t && LeafText(t, q).None?
    ensures f.Store? && !InStep(w.text, f.data, After(w.root, optype, t, x, !value.NoValue?), q)
  {
    hide *;
    LeafIs(leafs, w.text, q);
    WayOwned(x.path, q);
    FreshLeaf(q);
    TargetInStep(w, leafs, optype, h, r, t, x, value, e, f, q);
    NewLeaf(w.root, optype, t, x, !value.NoValue?, q);
  }

  lemma NewLeaf(root: Entry, optype: OpType, t: Tree, x: Target, hasOld: bool, q: Path)
    requires !CannotChange(root, optype, x, hasOld) && optype != DELETE
    requires OnTheWay(x.path, q) && !(x.path <= q) && Owner(q) !in t && Fresh(q).Leaf?
    ensures LeafText(After(root, optype, t, x, hasOld), q).Some?
  {
    hide WriteTyped, After, NewEntry, CannotChange, Fresh;
    AfterIs(root, optype, t, x, hasOld);
    TypedAt(root, t, x.path, x.value, q);
    TypedAt(root, Delete(t, x.path), x.path, x.value, q);
  }

  lemma SameOldIs(a: Value, b: Value)
    ensures SameOld(a, b) && a.Pointer? ==> b == a
    ensures SameOld(a, b) && a.LeafValue? ==> b.LeafValue?
  {
  }

  lemma LeafIs(leafs: Path -> bool, text: Path -> string, q: Path)
    requires SchemaLeaves(leafs, text) && leafs(q)
    ensures q != [] && Last(q).keys == map[]
  {
  }

  lemma NothingBelowLeaf(leafs: Path -> bool, text: Path -> string, t: Tree, p: Path, q: Path)
    requires SchemaLeaves(leafs, text) && Typed(leafs, t) && IsLeaf(t, p) && p < q
    ensures !leafs(q)
  {
  }

  lemma ToldIs(w: World, optype: OpType, g: Heap, s: nat, x: Target, value: Value, e: Outside, f: Outside, u: Tree, c: Option<Tree>)
    requires TargetTold(w, optype, g, s, x, value, true, e, f) && !CannotChange(w.root, optype, x, !value.NoValue?) && e.Store?
    requires TreeFrom(g, [], s) == u
    requires c == if value.Pointer? then Some(TreeFrom(g, ToRoute(x.path), value.n)) else None
    ensures f.Store? && f.data == AfterPush(w, e.data, u, c, x.path)
  {
    hide CannotChange, NewNodes, TreeFrom;
  }

  // ---------------------------------------------------------------- the targets of one operation

  /** What an unrelated target does leaves an old value as it is, up to the text of a leaf. */
  lemma FetchStays(w: World, optype: OpType, h: Heap, r: nat, t: Tree, x: Target, hasOld: bool, p: Path)
    requires Sound(h) && ([], r) in h.objs && Shows(h, r, t) && Writes(w.root, w.write) && Fits(x.path, x.value)
    requires !CannotChange(w.root, optype, x, hasOld) && (optype == DELETE ==> hasOld)
    requires !Related(x.path, p) && !Fetch(h, r, p).NoValue?
    ensures var (g, s) := Changed(w.write, optype, h, r, x, !hasOld);
            SameOld(Fetch(h, r, p), Fetch(g, s, p))
  {
    hide *;
    var (g, s) := Changed(w.write, optype, h, r, x, !hasOld);
    var u := After(w.root, optype, t, x, hasOld);
    ChangedShows(w, optype, h, r, t, x, hasOld);
    ApartPaths(x.path, p);
    FetchIs(h, r, t, p);
    FetchIs(g, s, u, p);
    OwnerThere(h, r, t, p);
    OwnerApart(x.path, p);
    AtHere(w.root, optype, t, x, hasOld, p);
    SameLeaf(t, u, p);
    LeadsStay(w, optype, h, r, t, x, hasOld, p);
    SameOldIf(Fetch(h, r, p), Fetch(g, s, p));
  }

  lemma SameOldIf(a: Value, b: Value)
    requires a == b || (a.LeafValue? && b.LeafValue?)
    ensures SameOld(a, b)
  {
  }

  lemma ApartPaths(p: Path, q: Path)
    requires !Related(p, q)
    ensures p != [] && q != [] && !(p <= q) && !(q <= p)
  {
  }

  /** What is there has its list entry. */
  lemma OwnerThere(h: Heap, r: nat, t: Tree, p: Path)
    requires Shows(h, r, t) && p != [] && !Fetch(h, r, p).NoValue?
    ensures ComesWithEntry(p) && Owner(p) != p ==> Owner(p) in t
  {
    if ComesWithEntry(p) && Owner(p) != p {
      var e := Init(p);
      assert Last(p).keys == map[] && Owner(p) == e && Last(e).keys != map[];
      assert ToRoute(p) == ToRoute(e) + [Field(Last(p).name)] && Init(ToRoute(p)) == ToRoute(e);
      LeadsSplitUp(h, r, ToRoute(e), Field(Last(p).name));
      assert Sees(h, [], r, e) == At(t, e);
      assert Sees(h, [], r, p) == At(t, p);
    }
    hide NewEntry;
  }

  lemma LeadsSplitUp(h: Heap, r: nat, w: Route, s: Step)
    ensures Leads(h, [], r, w + [s]).Some? ==> Leads(h, [], r, w).Some?
  {
    LeadsStep(h, [], r, w, s);
  }

  lemma OwnerApart(p: Path, q: Path)
    requires q != [] && !(q <= p)
    ensures OnTheWay(p, q) ==> Owner(q) != q
  {
  }

  lemma AtHere(root: Entry, optype: OpType, t: Tree, x: Target, hasOld: bool, p: Path)
    requires !CannotChange(root, optype, x, hasOld) && (optype == DELETE ==> hasOld)
    requires p != [] && !(x.path <= p) && (OnTheWay(x.path, p) ==> Owner(p) != p) && (ComesWithEntry(p) && Owner(p) != p ==> Owner(p) in t)
    ensures At(After(root, optype, t, x, hasOld), p) == At(t, p)
  {
    hide After, CannotChange, Owner, NewEntry;
    LeafElsewhere(root, optype, t, x, hasOld, p);
  }

  lemma SameLeaf(t: Tree, u: Tree, p: Path)
    requires At(u, p) == At(t, p)
    ensures IsLeaf(u, p) <==> IsLeaf(t, p)
    ensures LeafText(u, p) == LeafText(t, p)
  {
  }

  lemma LeadsStay(w: World, optype: OpType, h: Heap, r: nat, t: Tree, x: Target, hasOld: bool, p: Path)
    requires Sound(h) && ([], r) in h.objs && Shows(h, r, t) && Writes(w.root, w.write) && Fits(x.path, x.value)
    requires !CannotChange(w.root, optype, x, hasOld) && (optype == DELETE ==> hasOld) && x.path != [] && !(x.path <= p)
    ensures var (g, s) := Changed(w.write, optype, h, r, x, !hasOld);
            && s == r && (Leads(h, [], r, ToRoute(p)).Some? ==> Leads(g, [], s, ToRoute(p)) == Leads(h, [], r, ToRoute(p)))
  {
    hide *;
    var v := ToRoute(p);
    ChangedIs(w, optype, h, r, x, hasOld);
    RouteBelow(x.path, p);
    RemoveLeads(h, r, x.path, v);
    RemoveTree(h, r, x.path);
    TameParts(h, r, Remove(h, r, x.path), r, [], r);
    RemoveShows(h, r, x.path, t);
    if optype != DELETE && Leads(h, [], r, v).Some? {
      if optype == REPLACE && hasOld {
        WrittenInPlace(w, Remove(h, r, x.path), r, x, Delete(t, x.path));
        InPlaceAt(Remove(h, r, x.path), r, w.write(Remove(h, r, x.path), r, x.path, x.value), v);
      } else {
        WrittenInPlace(w, h, r, x, t);
        InPlaceAt(h, r, w.write(h, r, x.path, x.value), v);
      }
    }
  }

  /** The target does not delete the leaf q, and leaves alone the list entry that q is a key of, if that has to stay. */
  predicate Harmless(optype: OpType, x: Target, q: Path, owned: bool) {
    && (x.path == q ==> optype == UPDATE || (optype == REPLACE && q in x.value.cells && x.value.cells[q].Leaf?))
    && (OnTheWay(x.path, q) && !(x.path <= q) ==> owned)
    && (owned ==> ComesWithEntry(q) && (x.path <= Owner(q) ==> optype == UPDATE || (optype == REPLACE && x.path == [])))
  }

  /** The objects and the store while a request goes on: the leaf q is in step. */
  ghost predicate Going(w: World, leafs: Path -> bool, h: Heap, r: nat, e: Outside, q: Path, owned: bool) {
    var t := TreeFrom(h, [], r);
    && Sound(h) && ([], r) in h.objs && Typed(leafs, t) && e.Store? && InStep(w.text, e.data, t, q)
    && (owned ==> ComesWithEntry(q) && Owner(q) in t)
  }

  lemma OwnerStays(root: Entry, optype: OpType, t: Tree, x: Target, hasOld: bool, q: Path)
    requires !CannotChange(root, optype, x, hasOld) && (optype == DELETE ==> hasOld)
    requires Harmless(optype, x, q, true) && Owner(q) in t
    ensures Owner(q) in After(root, optype, t, x, hasOld)
  {
    hide Delete, WriteTyped, After, NewEntry, CannotChange;
    var e := Owner(q);
    assert Owner(e) == e;
    assert At(t, e) == Some(t[e]);
    if x.path <= e {
      AfterIs(root, optype, t, x, hasOld);
      TypedAt(root, t, x.path, x.value, e);
    } else {
      LeafElsewhere(root, optype, t, x, hasOld, e);
    }
  }

  lemma HarmlessLeaf(root: Entry, optype: OpType, t: Tree, x: Target, hasOld: bool, q: Path, owned: bool)
    requires !CannotChange(root, optype, x, hasOld) && (optype == DELETE ==> hasOld) && Fits(x.path, x.value)
    requires Harmless(optype, x, q, owned) && (owned ==> Owner(q) in t) && q != [] && Last(q).keys == map[]
    ensures var u := After(root, optype, t, x, hasOld);
            && (x.path == q ==> LeafText(u, q).Some? || LeafText(t, q).None?)
            && (!(x.path <= q) ==> LeafText(u, q) == LeafText(t, q))
  {
    hide WriteTyped, After, NewEntry, CannotChange, EntryThere, Fresh;
    if !(x.path <= q) {
      LeafElsewhere(root, optype, t, x, hasOld, q);
    } else if x.path == q {
      AfterIs(root, optype, t, x, hasOld);
      if optype == UPDATE {
        LeafStays(root, optype, t, x, hasOld, q);
      } else {
        TypedAt(root, if hasOld && q != [] then Delete(t, q) else t, q, x.value, q);
      }
    }
  }

  /** A target and its push keep a leaf in step that it does no harm to. */
  lemma TargetGoes(w: World, leafs: Path -> bool, optype: OpType, h: Heap, r: nat, x: Target, value: Value,
      e: Outside, f: Outside, q: Path, owned: bool)
    requires Going(w, leafs, h, r, e, q, owned) && Writes(w.root, w.write) && Fits(x.path, x.value)
    requires !CannotChange(w.root, optype, x, !value.NoValue?) && (optype == DELETE ==> !value.NoValue?)
    requires value.NoValue? || SameOld(value, Fetch(h, r, x.path))
    requires SchemaLeaves(leafs, w.text) && ListsLeaves(w, leafs) && TypedTarget(leafs, x) && leafs(q)
    requires Harmless(optype, x, q, owned)
    requires var (g, s) := Changed(w.write, optype, h, r, x, value.NoValue?); TargetTold(w, optype, g, s, x, value, true, e, f)
    ensures var (g, s) := Changed(w.write, optype, h, r, x, value.NoValue?); Going(w, leafs, g, s, f, q, owned)
  {
    hide *;
    var t := TreeFrom(h, [], r);
    var (g, s) := Changed(w.write, optype, h, r, x, value.NoValue?);
    GoingParts(w, leafs, h, r, e, q, owned);
    ChangedShows(w, optype, h, r, t, x, !value.NoValue?);
    ShownIs(g, s, After(w.root, optype, t, x, !value.NoValue?));
    AfterTyped(w.root, leafs, optype, t, x, !value.NoValue?);
    TargetInStep(w, leafs, optype, h, r, t, x, value, e, f, q);
    LeafIs(leafs, w.text, q);
    HarmlessLeaf(w.root, optype, t, x, !value.NoValue?, q, owned);
    if owned {
      OwnerStays(w.root, optype, t, x, !value.NoValue?, q);
    }
    GoingIf(w, leafs, g, s, f, q, owned);
  }

  lemma GoingParts(w: World, leafs: Path -> bool, h: Heap, r: nat, e: Outside, q: Path, owned: bool)
    requires Going(w, leafs, h, r, e, q, owned)
    ensures var t := TreeFrom(h, [], r);
            && Sound(h) && ([], r) in h.objs && Shows(h, r, t) && Typed(leafs, t) && e.Store? && InStep(w.text, e.data, t, q)
            && (owned ==> ComesWithEntry(q) && q != [] && Owner(q) in t)
  {
    TreeAt(h, [], r);
    hide TreeFrom;
  }

  lemma GoingIf(w: World, leafs: Path -> bool, h: Heap, r: nat, e: Outside, q: Path, owned: bool)
    requires var t := TreeFrom(h, [], r);
             && Sound(h) && ([], r) in h.objs && Typed(leafs, t) && e.Store? && InStep(w.text, e.data, t, q)
             && (owned ==> ComesWithEntry(q) && q != [] && Owner(q) in t)
    ensures Going(w, leafs, h, r, e, q, owned)
  {
    hide TreeFrom, InStep, Typed, Sound;
  }

  // ---------------------------------------------------------------- operations and requests

  /** The targets of the operation are unrelated to each other, and have leaves where the schema has. */
  ghost predicate Plain(leafs: Path -> bool, op: Op) {
    && (forall i, j :: 0 <= i < j < |op.targets| ==> !Related(op.targets[i].path, op.targets[j].path))
    && (forall x :: x in op.targets || x == op.full ==> TypedTarget(leafs, x))
  }

  /** What was found is there, and the values fit. */
  ghost predicate Found(h: Heap, r: nat, op: Op) {
    && (forall x :: x in op.targets ==> !Fetch(h, r, x.path).NoValue?)
    && (forall x :: x in op.targets || x == op.full ==> Fits(x.path, x.value))
  }

  predicate OpHarmless(op: Op, q: Path, owned: bool) {
    if op.targets == [] then op.optype != DELETE ==> Harmless(op.optype, op.full, q, owned)
    else forall x :: x in op.targets ==> Harmless(op.optype, x, q, owned)
  }

  /** The assumptions about the parts that are not modelled. */
  ghost predicate Assumed(w: World, leafs: Path -> bool) {
    Writes(w.root, w.write) && SchemaLeaves(leafs, w.text) && ListsLeaves(w, leafs)
  }

  lemma TakeIs(w: World, optype: OpType, st: ObjSt, x: Target, value: Value, pushed: bool)
    requires !st.failed && (optype == DELETE ==> !value.NoValue?) && !Take(w.root, w.write, optype, st, x, value, pushed).failed
    ensures !CannotChange(w.root, optype, x, !value.NoValue?) && pushed
    ensures var after := Take(w.root, w.write, optype, st, x, value, pushed);
            (after.heap, after.root) == Changed(w.write, optype, st.heap, st.root, x, value.NoValue?)
  {
    hide Changed;
    TakeFails(w.root, w.write, optype, st, x, value, pushed);
  }

  lemma OneGoes(w: World, leafs: Path -> bool, optype: OpType, st: ObjSt, x: Target, value: Value, pushed: bool,
      e: Outside, f: Outside, q: Path, owned: bool)
    requires !st.failed && Going(w, leafs, st.heap, st.root, e, q, owned) && Assumed(w, leafs) && leafs(q)
    requires (optype == DELETE ==> !value.NoValue?) && !Take(w.root, w.write, optype, st, x, value, pushed).failed
    requires (value.NoValue? || SameOld(value, Fetch(st.heap, st.root, x.path))) && Fits(x.path, x.value) && TypedTarget(leafs, x)
    requires Harmless(optype, x, q, owned)
    requires var after := Take(w.root, w.write, optype, st, x, value, pushed);
             TargetTold(w, optype, after.heap, after.root, x, value, pushed, e, f)
    ensures var after := Take(w.root, w.write, optype, st, x, value, pushed); Going(w, leafs, after.heap, after.root, f, q, owned)
  {
    hide *;
    AssumedParts(w, leafs);
    TakeIs(w, optype, st, x, value, pushed);
    TargetGoes(w, leafs, optype, st.heap, st.root, x, value, e, f, q, owned);
  }

  lemma AssumedParts(w: World, leafs: Path -> bool)
    requires Assumed(w, leafs)
    ensures Writes(w.root, w.write) && SchemaLeaves(leafs, w.text) && ListsLeaves(w, leafs)
  {
  }

  lemma OldStays(w: World, leafs: Path -> bool, optype: OpType, st: ObjSt, x: Target, value: Value, pushed: bool, e: Outside,
      q: Path, owned: bool, was: Value, p: Path)
    requires !st.failed && Going(w, leafs, st.heap, st.root, e, q, owned) && Assumed(w, leafs) && Fits(x.path, x.value)
    requires (optype == DELETE ==> !value.NoValue?) && !Take(w.root, w.write, optype, st, x, value, pushed).failed
    requires !Related(x.path, p) && !was.NoValue? && SameOld(was, Fetch(st.heap, st.root, p))
    ensures var after := Take(w.root, w.write, optype, st, x, value, pushed); SameOld(was, Fetch(after.heap, after.root, p))
  {
    hide *;
    AssumedParts(w, leafs);
    GoingParts(w, leafs, st.heap, st.root, e, q, owned);
    TakeIs(w, optype, st, x, value, pushed);
    SameOldSome(was, Fetch(st.heap, st.root, p));
    FetchStays(w, optype, st.heap, st.root, TreeFrom(st.heap, [], st.root), x, !value.NoValue?, p);
    var after := Take(w.root, w.write, optype, st, x, value, pushed);
    SameOldTwice(was, Fetch(st.heap, st.root, p), Fetch(after.heap, after.root, p));
  }

  lemma SameOldSome(a: Value, b: Value)
    requires SameOld(a, b) && !a.NoValue?
    ensures !b.NoValue?
  {
  }

  lemma SameOldTwice(a: Value, b: Value, c: Value)
    requires SameOld(a, b) && SameOld(b, c)
    ensures SameOld(a, c)
  {
  }

  lemma PlainParts(leafs: Path -> bool, h: Heap, r: nat, op: Op, i: nat)
    requires Plain(leafs, op) && Found(h, r, op) && i < |op.targets|
    ensures var x := op.targets[i]; Fits(x.path, x.value) && TypedTarget(leafs, x) && !Fetch(h, r, x.path).NoValue?
    ensures forall j :: i < j < |op.targets| ==> !Related(op.targets[i].path, op.targets[j].path)
    ensures forall j :: 0 <= j < |op.targets| ==> !Fetch(h, r, op.targets[j].path).NoValue?
  {
    hide Fits, TypedTarget, Related, Fetch;
    assert op.targets[i] in op.targets;
  }

  lemma HarmlessAt(op: Op, q: Path, owned: bool, i: nat)
    requires OpHarmless(op, q, owned) && i < |op.targets|
    ensures Harmless(op.optype, op.targets[i], q, owned)
  {
    hide Harmless;
    assert op.targets[i] in op.targets;
  }

  lemma TargetsToldParts(w: World, optype: OpType, h: Heap, r: nat, st: ObjSt, targets: seq<Target>, pushed: seq<bool>,
      e: Outside, f: Outside) returns (mid: Outside)
    requires |pushed| == |targets| && targets != [] && TargetsTold(w, optype, h, r, st, targets, pushed, e, f)
    requires !TakeTargets(w.root, w.write, optype, h, r, st, Init(targets), Init(pushed)).failed
    ensures TargetsTold(w, optype, h, r, st, Init(targets), Init(pushed), e, mid)
    ensures var after := TakeTargets(w.root, w.write, optype, h, r, st, targets, pushed);
            TargetTold(w, optype, after.heap, after.root, Last(targets), Fetch(h, r, Last(targets).path), Last(pushed), mid, f)
  {
    hide TargetTold, TakeTargets, Fetch;
    mid :| TargetsTold(w, optype, h, r, st, Init(targets), Init(pushed), e, mid) && LastTold(w, optype, h, r, st, targets, pushed, mid, f);
  }

  lemma TargetsStep(w: World, optype: OpType, h: Heap, r: nat, st: ObjSt, targets: seq<Target>, pushed: seq<bool>, n: nat)
    requires |pushed| == |targets| && 0 < n <= |targets|
    ensures Init(targets[..n]) == targets[..n - 1] && Init(pushed[..n]) == pushed[..n - 1]
    ensures Last(targets[..n]) == targets[n - 1] && Last(pushed[..n]) == pushed[n - 1]
    ensures var before := TakeTargets(w.root, w.write, optype, h, r, st, targets[..n - 1], pushed[..n - 1]);
            var x := targets[n - 1];
            TakeTargets(w.root, w.write, optype, h, r, st, targets[..n], pushed[..n])
            == if before.failed then before else Take(w.root, w.write, optype, before, x, Fetch(h, r, x.path), pushed[n - 1])
  {
    hide Take, Fetch;
    assert Init(targets[..n]) == targets[..n - 1] && Init(pushed[..n]) == pushed[..n - 1];
  }

  /** After the first n targets the leaf is in step, and the old values of the others are still there. */
  lemma {:induction false} TargetsGo(w: World, leafs: Path -> bool, st: ObjSt, op: Op, n: nat, e: Outside, f: Outside, q: Path, owned: bool)
    requires WellFormed(op) && n <= |op.targets| && !st.failed && Assumed(w, leafs) && leafs(q)
    requires Going(w, leafs, st.heap, st.root, e, q, owned) && Plain(leafs, op) && Found(st.heap, st.root, op) && OpHarmless(op, q, owned)
    requires TargetsTold(w, op.optype, st.heap, st.root, st, op.targets[..n], op.pushed[..n], e, f)
    requires !TakeTargets(w.root, w.write, op.optype, st.heap, st.root, st, op.targets[..n], op.pushed[..n]).failed
    ensures var now := TakeTargets(w.root, w.write, op.optype, st.heap, st.root, st, op.targets[..n], op.pushed[..n]);
            && Going(w, leafs, now.heap, now.root, f, q, owned)
            && forall j :: n <= j < |op.targets| ==>
                 SameOld(Fetch(st.heap, st.root, op.targets[j].path), Fetch(now.heap, now.root, op.targets[j].path))
  {
    hide *;
    WellFormedIs(op);
    if n == 0 {
      NoneTaken(w, st, op, e, f);
      SameOldSelf();
    } else {
      TargetsStep(w, op.optype, st.heap, st.root, st, op.targets, op.pushed, n);
      var mid := TargetsToldParts(w, op.optype, st.heap, st.root, st, op.targets[..n], op.pushed[..n], e, f);
      TargetsGo(w, leafs, st, op, n - 1, e, mid, q, owned);
      var before := TakeTargets(w.root, w.write, op.optype, st.heap, st.root, st, op.targets[..n - 1], op.pushed[..n - 1]);
      var x := op.targets[n - 1];
      var value := Fetch(st.heap, st.root, x.path);
      PlainParts(leafs, st.heap, st.root, op, n - 1);
      HarmlessAt(op, q, owned, n - 1);
      OneGoes(w, leafs, op.optype, before, x, value, op.pushed[n - 1], mid, f, q, owned);
      forall j | n <= j < |op.targets|
        ensures var after := Take(w.root, w.write, op.optype, before, x, value, op.pushed[n - 1]);
                SameOld(Fetch(st.heap, st.root, op.targets[j].path), Fetch(after.heap, after.root, op.targets[j].path))
      {
        OldStays(w, leafs, op.optype, before, x, value, op.pushed[n - 1], mid, q, owned,
                 Fetch(st.heap, st.root, op.targets[j].path), op.targets[j].path);
      }
    }
  }

  lemma WellFormedIs(op: Op)
    requires WellFormed(op)
    ensures |op.pushed| == |op.targets|
  {
  }

  lemma SameOldSelf()
    ensures forall a :: SameOld(a, a)
  {
  }

  lemma NoneTaken(w: World, st: ObjSt, op: Op, e: Outside, f: Outside)
    requires WellFormed(op) && TargetsTold(w, op.optype, st.heap, st.root, st, op.targets[..0], op.pushed[..0], e, f)
    ensures TakeTargets(w.root, w.write, op.optype, st.heap, st.root, st, op.targets[..0], op.pushed[..0]) == st && f == e
  {
  }

  lemma OpGoes(w: World, leafs: Path -> bool, st: ObjSt, op: Op, e: Outside, f: Outside, q: Path, owned: bool)
    requires WellFormed(op) && !st.failed && Assumed(w, leafs) && leafs(q)
    requires Going(w, leafs, st.heap, st.root, e, q, owned) && Plain(leafs, op) && Found(st.heap, st.root, op) && OpHarmless(op, q, owned)
    requires OpTold(w, st, op, e, f) && !TakeOp(w.root, w.write, st, op).failed
    ensures var now := TakeOp(w.root, w.write, st, op); Going(w, leafs, now.heap, now.root, f, q, owned)
  {
    hide *;
    WellFormedIs(op);
    OpToldIs(w, st, op, e, f);
    if op.targets != [] {
      assert op.targets[..|op.targets|] == op.targets && op.pushed[..|op.pushed|] == op.pushed;
      TargetsGo(w, leafs, st, op, |op.targets|, e, f, q, owned);
    } else if op.optype != DELETE {
      FullParts(leafs, st.heap, st.root, op, q, owned);
      OneGoes(w, leafs, op.optype, st, op.full, NoValue, op.pushedNew, e, f, q, owned);
    }
  }

  lemma OpToldIs(w: World, st: ObjSt, op: Op, e: Outside, f: Outside)
    requires WellFormed(op) && OpTold(w, st, op, e, f)
    ensures if op.targets != [] then
              && |op.pushed| == |op.targets|
              && TargetsTold(w, op.optype, st.heap, st.root, st, op.targets, op.pushed, e, f)
              && TakeOp(w.root, w.write, st, op) == TakeTargets(w.root, w.write, op.optype, st.heap, st.root, st, op.targets, op.pushed)
            else if op.optype == DELETE then f == e && TakeOp(w.root, w.write, st, op) == st
            else
              var after := Take(w.root, w.write, op.optype, st, op.full, NoValue, op.pushedNew);
              && TakeOp(w.root, w.write, st, op) == after
              && TargetTold(w, op.optype, after.heap, after.root, op.full, NoValue, op.pushedNew, e, f)
  {
    hide TargetsTold, TargetTold, Take, TakeTargets;
  }

  lemma FullParts(leafs: Path -> bool, h: Heap, r: nat, op: Op, q: Path, owned: bool)
    requires Plain(leafs, op) && Found(h, r, op) && OpHarmless(op, q, owned) && op.targets == [] && op.optype != DELETE
    ensures Fits(op.full.path, op.full.value) && TypedTarget(leafs, op.full) && Harmless(op.optype, op.full, q, owned)
  {
    hide Fits, TypedTarget, Harmless;
  }

  /** What each operation finds is there when it begins. */
  ghost predicate AllFound(w: World, st: ObjSt, ops: seq<Op>)
    requires forall op :: op in ops ==> WellFormed(op)
  {
    forall k :: 0 <= k < |ops| ==> var now := TakeOps(w.root, w.write, st, ops[..k]); Found(now.heap, now.root, ops[k])
  }

  /** A leaf that was in step when the request began, and that no target does harm to, is in step in the tree that the request
      has written, however the targets lie to each other. */
  lemma {:induction false} RequestInStep(w: World, leafs: Path -> bool, st: ObjSt, ops: seq<Op>, e: Outside, f: Outside, q: Path, owned: bool)
    requires (forall op :: op in ops ==> WellFormed(op)) && !st.failed && Assumed(w, leafs) && leafs(q)
    requires Going(w, leafs, st.heap, st.root, e, q, owned) && AllFound(w, st, ops)
    requires forall op :: op in ops ==> Plain(leafs, op) && OpHarmless(op, q, owned)
    requires OpsTold(w, st, ops, e, f) && !TakeOps(w.root, w.write, st, ops).failed
    ensures var now := TakeOps(w.root, w.write, st, ops); Going(w, leafs, now.heap, now.root, f, q, owned)
    decreases |ops|
  {
    hide *;
    OpsStep(w, st, ops);
    if ops == [] {
      NothingToldYet(w, st, e, f);
    } else {
      InitLast(ops);
      var mid := OpsToldParts(w, st, ops, e, f);
      InitFound(w, st, ops);
      RequestInStep(w, leafs, st, Init(ops), e, mid, q, owned);
      OpGoes(w, leafs, TakeOps(w.root, w.write, st, Init(ops)), Last(ops), mid, f, q, owned);
    }
  }

  lemma NothingToldYet(w: World, st: ObjSt, e: Outside, f: Outside)
    requires OpsTold(w, st, [], e, f)
    ensures f == e && TakeOps(w.root, w.write, st, []) == st
  {
  }

  lemma OpsStep(w: World, st: ObjSt, ops: seq<Op>)
    requires forall op :: op in ops ==> WellFormed(op)
    ensures ops != [] ==>
              && (forall op :: op in Init(ops) ==> op in ops && WellFormed(op)) && Last(ops) in ops && WellFormed(Last(ops))
              && var before := TakeOps(w.root, w.write, st, Init(ops));
                 TakeOps(w.root, w.write, st, ops) == if before.failed then before else TakeOp(w.root, w.write, before, Last(ops))
  {
    hide TakeOp, WellFormed;
  }

  lemma OpsToldParts(w: World, st: ObjSt, ops: seq<Op>, e: Outside, f: Outside) returns (mid: Outside)
    requires ops != [] && (forall op :: op in ops ==> WellFormed(op)) && OpsTold(w, st, ops, e, f)
    requires !TakeOps(w.root, w.write, st, Init(ops)).failed
    ensures OpsTold(w, st, Init(ops), e, mid) && OpTold(w, TakeOps(w.root, w.write, st, Init(ops)), Last(ops), mid, f)
  {
    hide OpTold, TakeOps;
    mid :| OpsTold(w, st, Init(ops), e, mid) && LastOpTold(w, st, ops, mid, f);
  }

  lemma InitFound(w: World, st: ObjSt, ops: seq<Op>)
    requires ops != [] && (forall op :: op in ops ==> WellFormed(op)) && AllFound(w, st, ops)
    ensures forall op :: op in Init(ops) ==> op in ops
    ensures AllFound(w, st, Init(ops))
    ensures var now := TakeOps(w.root, w.write, st, Init(ops)); Found(now.heap, now.root, Last(ops))
  {
    hide Found, TakeOps, WellFormed;
    var n := |ops| - 1;
    assert ops[..n] == Init(ops);
    forall k | 0 <= k < n
      ensures var now := TakeOps(w.root, w.write, st, Init(ops)[..k]); Found(now.heap, now.root, Init(ops)[k])
    {
      assert Init(ops)[..k] == ops[..k] && Init(ops)[k] == ops[k];
    }
  }

  // ---------------------------------------------------------------- the walk back

  /** What the item needs to be written back. */
  predicate ItemSound(h: Heap, b: Item) {
    match b.value
    case NoValue => true
    case LeafValue(_) => b.gpath != [] && Last(b.gpath).keys == map[]
    case Pointer(n) => (ToRoute(b.gpath), n) in h.objs
  }

  /** The step from t to u does not take the leaf q away behind the back of the store: where it is changed the entry was
      executed and is at or above it; and it is only gone if the entry takes a container out. */
  predicate StepKeeps(t: Tree, u: Tree, b: Item, q: Path) {
    if b.executed && b.gpath <= q then LeafText(u, q).Some? || LeafText(t, q).None? || (b.value.NoValue? && b.gpath < q)
    else LeafText(u, q) == LeafText(t, q)
  }

  /** All calls from the one state to the other are accepted. */
  ghost predicate Accepted(w: World, e: Outside, f: Outside) {
    e.Store? && f.Store? ==> forall n :: |e.calls| <= n < |f.calls| ==> w.answers(n)
  }

  lemma PushAccepted(w: World, e: Outside, f: Outside, cur: seq<S.Node>, new_: seq<S.Node>, ok: bool)
    requires OnePush(w, e, f, cur, new_, ok) && e.Store?
    ensures f.Store? && |e.calls| <= |f.calls| && (Accepted(w, e, f) ==> ok)
  {
    var script := S.Script(cur, new_);
    var n :| 0 <= n <= |script| && S.PushedFirst(w.answers, e.calls, f.calls, script, ok, n);
    hide S.Script, S.AfterAll;
    assert |f.calls| == |e.calls| + n + 2;
  }

  lemma RevertSound(root: Entry, h: Heap, r: nat, b: Item)
    requires Sound(h) && ([], r) in h.objs && ItemSound(h, b)
    ensures var g := Revert(root, h, r, b); Sound(g) && ([], r) in g.objs && forall k :: k in h.objs ==> k in g.objs
  {
    hide Sound, Remove, WriteLeaf, WriteStruct;
    var t := TreeFrom(h, [], r);
    TreeShown(h, r);
    match b.value {
      case NoValue =>
        if b.gpath != [] {
          RemoveTree(h, r, b.gpath);
          TameParts(h, r, Remove(h, r, b.gpath), r, [], r);
        }
      case LeafValue(v) =>
        WriteLeafSees(h, r, b.gpath, v, t);
        TameParts(h, r, WriteLeaf(h, r, b.gpath, v), r, [], r);
      case Pointer(n) =>
        WriteStructShows(h, r, b.gpath, n, t);
        TameParts(h, r, WriteStruct(h, r, b.gpath, n), r, ToRoute(b.gpath), n);
    }
  }

  lemma TreeShown(h: Heap, r: nat)
    requires Sound(h) && ([], r) in h.objs
    ensures Shows(h, r, TreeFrom(h, [], r))
  {
    TreeAt(h, [], r);
    hide TreeFrom;
  }

  /** The old value that a missing node's undoing takes out has what the tree had. */
  lemma TakenOut(root: Entry, h: Heap, r: nat, b: Item, q: Path)
    requires Sound(h) && ([], r) in h.objs && b.value.NoValue? && b.gpath < q
    requires !(Descend(root, Names(b.gpath)).None? || Refuses(root, b.gpath)) && !Fetch(h, r, b.gpath).LeafValue?
    requires LeafText(TreeFrom(h, [], r), q).Some?
    ensures var m := Fetch(h, r, b.gpath);
            m.Pointer? && LeafText(TreeFrom(Revert(root, h, r, b), ToRoute(b.gpath), m.n), q).Some?
  {
    hide *;
    var t, p := TreeFrom(h, [], r), b.gpath;
    TreeShown(h, r);
    FetchIs(h, r, t, p);
    WayTo(h, r, t, p, q);
    RefusesRoot(root);
    NilReverted(root, h, r, b);
    var n := Leads(h, [], r, ToRoute(p)).value;
    SameBelowItself(t, p);
    TakenOutLoose(h, r, p, n, t, t);
    RemoveTree(h, r, p);
    TameParts(h, r, Remove(h, r, p), r, [], r);
    LooseLeaves(Remove(h, r, p), r, p, n, t);
  }

  lemma RefusesRoot(root: Entry)
    ensures Refuses(root, [])
  {
  }

  lemma NilReverted(root: Entry, h: Heap, r: nat, b: Item)
    ensures b.value.NoValue? ==>
              Revert(root, h, r, b) == if Descend(root, Names(b.gpath)).None? || Refuses(root, b.gpath) then h else Remove(h, r, b.gpath)
  {
  }

  /** A leaf below p is reached through p. */
  lemma WayTo(h: Heap, r: nat, t: Tree, p: Path, q: Path)
    requires Shows(h, r, t) && p < q && LeafText(t, q).Some?
    ensures Leads(h, [], r, ToRoute(p)).Some?
  {
    assert Sees(h, [], r, q) == At(t, q);
    assert p <= Init(q);
    RouteBelow(p, Init(q));
    LeadsSplit(h, [], r, ToRoute(p), ToRoute(Init(q)));
  }

  /** Undoing one entry, with its push if there is one, keeps a leaf in step that it does not take away unseen. */
  lemma EntryGoes(w: World, leafs: Path -> bool, h: Heap, r: nat, b: Item, e: Outside, f: Outside, q: Path)
    requires Sound(h) && ([], r) in h.objs && ItemSound(h, b)
    requires SchemaLeaves(leafs, w.text) && ListsLeaves(w, leafs) && leafs(q)
    requires var t, u := TreeFrom(h, [], r), TreeFrom(Revert(w.root, h, r, b), [], r);
             Typed(leafs, t) && Typed(leafs, u) && StepKeeps(t, u, b, q) && e.Store? && InStep(w.text, e.data, t, q)
    requires EntryTold(w, h, r, b, e, f) && Accepted(w, e, f)
    ensures f.Store? && InStep(w.text, f.data, TreeFrom(Revert(w.root, h, r, b), [], r), q)
  {
    hide *;
    var p, g := b.gpath, Revert(w.root, h, r, b);
    var t, u, value := TreeFrom(h, [], r), TreeFrom(g, [], r), Fetch(h, r, p);
    var c := if value.Pointer? then Some(TreeFrom(g, ToRoute(p), value.n)) else None;
    KeepsIs(t, u, b, q);
    TreeShown(h, r);
    FetchIs(h, r, t, p);
    NilReverted(w.root, h, r, b);
    if b.executed && !(b.value.NoValue? && Descend(w.root, Names(p)).None?) {
      var ok := EntryPush(w, h, r, b, e, f);
      PushAccepted(w, e, f, OldList(w, g, value, p), NewList(w, g, r, p), ok);
      PushIs(w, g, r, p, value, e, f, u, c);
      PushedAt(w, leafs, e.data, t, u, c, p, q);
      if p < q && LeafText(u, q).None? && LeafText(t, q).Some? {
        LeafIs(leafs, w.text, q);
        if value.LeafValue? {
          NothingBelowLeaf(leafs, w.text, t, p, q);
          assert false;
        }
        TakenOut(w.root, h, r, b, q);
      }
    } else {
      NoPush(w, h, r, b, e, f);
      InStepIs(w.text, e.data, t, q);
      InStepIs(w.text, e.data, u, q);
    }
  }

  lemma KeepsIs(t: Tree, u: Tree, b: Item, q: Path)
    requires StepKeeps(t, u, b, q)
    ensures if b.executed && b.gpath <= q then LeafText(u, q).Some? || LeafText(t, q).None? || (b.value.NoValue? && b.gpath < q)
            else LeafText(u, q) == LeafText(t, q)
  {
  }

  lemma EntryPush(w: World, h: Heap, r: nat, b: Item, e: Outside, f: Outside) returns (ok: bool)
    requires EntryTold(w, h, r, b, e, f) && b.executed && !(b.value.NoValue? && Descend(w.root, Names(b.gpath)).None?)
    ensures var g := Revert(w.root, h, r, b);
            OnePush(w, e, f, OldList(w, g, Fetch(h, r, b.gpath), b.gpath), NewList(w, g, r, b.gpath), ok)
  {
    hide OnePush, OldList, NewList, Fetch, Revert, Descend;
    var g := Revert(w.root, h, r, b);
    ok :| OnePush(w, e, f, OldList(w, g, Fetch(h, r, b.gpath), b.gpath), NewList(w, g, r, b.gpath), ok);
  }

  lemma NoPush(w: World, h: Heap, r: nat, b: Item, e: Outside, f: Outside)
    requires EntryTold(w, h, r, b, e, f) && !(b.executed && !(b.value.NoValue? && Descend(w.root, Names(b.gpath)).None?))
    ensures f == e
  {
    hide OnePush, OldList, NewList, Fetch, Revert, Descend;
  }

  lemma PushIs(w: World, g: Heap, s: nat, p: Path, value: Value, e: Outside, f: Outside, u: Tree, c: Option<Tree>)
    requires OnePush(w, e, f, OldList(w, g, value, p), NewList(w, g, s, p), true) && e.Store? && TreeFrom(g, [], s) == u
    requires c == if value.Pointer? then Some(TreeFrom(g, ToRoute(p), value.n)) else None
    ensures f.Store? && f.data == AfterPush(w, e.data, u, c, p)
  {
    hide NewNodes, TreeFrom, S.Pushed;
  }

  /** The walk takes the leaf q away from no one unseen. */
  ghost predicate WalkKeeps(root: Entry, leafs: Path -> bool, h: Heap, r: nat, log: seq<Item>, q: Path) {
    && (forall i :: 0 <= i <= |log| ==> Typed(leafs, TreeFrom(RevertAll(root, h, r, log[..i]), [], r)))
    && (forall i :: 0 <= i < |log| ==>
          StepKeeps(TreeFrom(RevertAll(root, h, r, log[..i]), [], r), TreeFrom(RevertAll(root, h, r, log[..i + 1]), [], r), log[i], q))
  }

  lemma WalkKeepsInit(root: Entry, leafs: Path -> bool, h: Heap, r: nat, log: seq<Item>, q: Path)
    requires log != [] && WalkKeeps(root, leafs, h, r, log, q)
    ensures WalkKeeps(root, leafs, h, r, Init(log), q)
    ensures var g := RevertAll(root, h, r, Init(log));
            var t, u := TreeFrom(g, [], r), TreeFrom(Revert(root, g, r, Last(log)), [], r);
            Typed(leafs, t) && Typed(leafs, u) && StepKeeps(t, u, Last(log), q)
  {
    hide *;
    var n := |log| - 1;
    InitLast(log);
    RevertSnoc(root, h, r, Init(log), Last(log));
    assert log[..n] == Init(log) && log[..n + 1] == log;
    WalkAt(root, leafs, h, r, log, q, n);
    WalkLess(root, leafs, h, r, log, q, n);
  }

  lemma WalkAt(root: Entry, leafs: Path -> bool, h: Heap, r: nat, log: seq<Item>, q: Path, i: nat)
    requires WalkKeeps(root, leafs, h, r, log, q) && i < |log|
    ensures var t, u := TreeFrom(RevertAll(root, h, r, log[..i]), [], r), TreeFrom(RevertAll(root, h, r, log[..i + 1]), [], r);
            Typed(leafs, t) && Typed(leafs, u) && StepKeeps(t, u, log[i], q)
  {
    hide RevertAll, TreeFrom, Typed, StepKeeps;
  }

  lemma WalkLess(root: Entry, leafs: Path -> bool, h: Heap, r: nat, log: seq<Item>, q: Path, n: nat)
    requires WalkKeeps(root, leafs, h, r, log, q) && n <= |log|
    ensures WalkKeeps(root, leafs, h, r, log[..n], q)
  {
    hide RevertAll, TreeFrom, Typed, StepKeeps;
    assert forall i :: 0 <= i <= n ==> log[..n][..i] == log[..i];
  }

  lemma {:induction false} WalkSound(root: Entry, h: Heap, r: nat, log: seq<Item>)
    requires Sound(h) && ([], r) in h.objs && forall b :: b in log ==> ItemSound(h, b)
    ensures var g := RevertAll(root, h, r, log); Sound(g) && ([], r) in g.objs && forall k :: k in h.objs ==> k in g.objs
    decreases |log|
  {
    hide Sound, Revert;
    if log != [] {
      InitLast(log);
      assert forall b :: b in Init(log) ==> b in log;
      WalkSound(root, h, r, Init(log));
      StillSound(h, RevertAll(root, h, r, Init(log)), Last(log));
      RevertSound(root, RevertAll(root, h, r, Init(log)), r, Last(log));
    }
  }

  lemma RollbackToldParts(w: World, h: Heap, r: nat, log: seq<Item>, e: Outside, f: Outside) returns (mid: Outside)
    requires log != [] && RollbackTold(w, h, r, log, e, f)
    ensures RollbackTold(w, h, r, Init(log), e, mid) && EntryTold(w, RevertAll(w.root, h, r, Init(log)), r, Last(log), mid, f)
  {
    hide EntryTold, RevertAll;
    mid :| RollbackTold(w, h, r, Init(log), e, mid) && EntryTold(w, RevertAll(w.root, h, r, Init(log)), r, Last(log), mid, f);
  }

  lemma EntryCalls(w: World, h: Heap, r: nat, b: Item, e: Outside, f: Outside)
    requires EntryTold(w, h, r, b, e, f) && e.Store?
    ensures f.Store? && |e.calls| <= |f.calls|
  {
    hide OnePush, OldList, NewList, Fetch, Revert, Descend;
    var g := Revert(w.root, h, r, b);
    if f != e {
      var ok :| OnePush(w, e, f, OldList(w, g, Fetch(h, r, b.gpath), b.gpath), NewList(w, g, r, b.gpath), ok);
      PushAccepted(w, e, f, OldList(w, g, Fetch(h, r, b.gpath), b.gpath), NewList(w, g, r, b.gpath), ok);
    }
  }

  lemma {:induction false} RollbackCalls(w: World, h: Heap, r: nat, log: seq<Item>, e: Outside, f: Outside)
    requires RollbackTold(w, h, r, log, e, f) && e.Store?
    ensures f.Store? && |e.calls| <= |f.calls|
    decreases |log|
  {
    hide EntryTold, RevertAll;
    if log != [] {
      InitLast(log);
      var mid := RollbackToldParts(w, h, r, log, e, f);
      RollbackCalls(w, h, r, Init(log), e, mid);
      EntryCalls(w, RevertAll(w.root, h, r, Init(log)), r, Last(log), mid, f);
    }
  }

  /** So a leaf that is in step when the rollback begins is in step when it is done, if the store accepts what it is told and
      the walk does not take the leaf away unseen. */
  lemma {:induction false} RollbackInStep(w: World, leafs: Path -> bool, h: Heap, r: nat, log: seq<Item>, e: Outside, f: Outside, q: Path)
    requires Sound(h) && ([], r) in h.objs && forall b :: b in log ==> ItemSound(h, b)
    requires SchemaLeaves(leafs, w.text) && ListsLeaves(w, leafs) && leafs(q) && WalkKeeps(w.root, leafs, h, r, log, q)
    requires e.Store? && InStep(w.text, e.data, TreeFrom(h, [], r), q)
    requires RollbackTold(w, h, r, log, e, f) && Accepted(w, e, f)
    ensures f.Store? && InStep(w.text, f.data, TreeFrom(RevertAll(w.root, h, r, log), [], r), q)
    decreases |log|
  {
    hide *;
    NoWalk(w, h, r, e, f);
    if log != [] {
      InitLast(log);
      assert forall b :: b in Init(log) ==> b in log;
      var g := RevertAll(w.root, h, r, Init(log));
      var mid := RollbackToldParts(w, h, r, log, e, f);
      RollbackCalls(w, h, r, Init(log), e, mid);
      EntryCalls(w, g, r, Last(log), mid, f);
      AcceptedParts(w, e, mid, f);
      WalkKeepsInit(w.root, leafs, h, r, log, q);
      RollbackInStep(w, leafs, h, r, Init(log), e, mid, q);
      WalkSound(w.root, h, r, Init(log));
      StillSound(h, g, Last(log));
      EntryGoes(w, leafs, g, r, Last(log), mid, f, q);
      RevertSnoc(w.root, h, r, Init(log), Last(log));
    }
  }

  /** The assumptions, and the log can be written back. */
  ghost predicate Rewindable(w: World, leafs: Path -> bool, h: Heap, r: nat, log: seq<Item>) {
    && SchemaLeaves(leafs, w.text) && ListsLeaves(w, leafs) && Sound(h) && ([], r) in h.objs
    && forall b :: b in log ==> ItemSound(h, b)
  }

  lemma RewindableParts(w: World, leafs: Path -> bool, h: Heap, r: nat, log: seq<Item>)
    requires Rewindable(w, leafs, h, r, log)
    ensures SchemaLeaves(leafs, w.text) && ListsLeaves(w, leafs) && Sound(h) && ([], r) in h.objs
    ensures forall b :: b in log ==> ItemSound(h, b)
  {
  }

  lemma NoWalk(w: World, h: Heap, r: nat, e: Outside, f: Outside)
    ensures RollbackTold(w, h, r, [], e, f) ==> f == e && RevertAll(w.root, h, r, []) == h
  {
  }

  lemma AcceptedParts(w: World, e: Outside, mid: Outside, f: Outside)
    requires Accepted(w, e, f) && e.Store? && mid.Store? && f.Store? && |e.calls| <= |mid.calls| <= |f.calls|
    ensures Accepted(w, e, mid) && Accepted(w, mid, f)
  {
  }

  lemma StillSound(h: Heap, g: Heap, b: Item)
    requires ItemSound(h, b) && forall k :: k in h.objs ==> k in g.objs
    ensures ItemSound(g, b)
  {
  }
}
