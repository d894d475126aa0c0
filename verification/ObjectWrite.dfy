/** There is a writer that does what is taken of ytypes.Unmarshal and ytypes.SetNode: cell by cell, the shortest paths
    first, into the structs that are there. */
module ObjectWrite {
  import opened Text
  import opened PathText
  import opened Schema
  import opened DataTree
  import opened Transaction
  import opened Objects
  import opened ObjectSet

  // ---------------------------------------------------------------- one object gets other leaves

  lemma LeavesLead(h: Heap, r: nat, w: Route, m: nat, leaves: map<string, string>, v: Route)
    requires Leads(h, [], r, w) == Some(m)
    ensures Leads(Poke(h, w, m, Obj(leaves, Read(h, w, m).links), 0), [], r, v) == Leads(h, [], r, v)
  {
    hide Leads, Poke;
    var o := Obj(leaves, Read(h, w, m).links);
    FewerLeads(h, [], r, w, m, o, v);
    if w < v && v[|w|] !in o.links {
      NoLink(h, r, w, m, v);
    }
  }

  lemma LeavesSeen(h: Heap, r: nat, w: Route, m: nat, leaves: map<string, string>, q: Path)
    requires Leads(h, [], r, w) == Some(m)
    ensures Sees(Poke(h, w, m, Obj(leaves, Read(h, w, m).links), 0), [], r, q)
            == if q != [] && Last(q).keys == map[] && ToRoute(Init(q)) == w
               then (var x := At(leaves, Last(q).name); if x.None? then None else Some(Leaf(x.value)))
               else Sees(h, [], r, q)
  {
    hide *;
    var o := Obj(leaves, Read(h, w, m).links);
    SeesIs(h, r, q);
    SeesIs(Poke(h, w, m, o, 0), r, q);
    if q != [] {
      LeavesLead(h, r, w, m, leaves, ToRoute(q));
      FewerSame(h, w, m, leaves);
      ChangedLeaf(h, r, w, m, o, ToRoute(Init(q)), Last(q).name);
      Ahead(w, Field(""), ToRoute(Init(q)));
      if w < ToRoute(Init(q)) && ToRoute(Init(q))[|w|] !in o.links {
        NoLink(h, r, w, m, ToRoute(Init(q)));
        LeafNowhere(h, r, ToRoute(Init(q)), Last(q).name);
      }
    }
  }

  lemma FewerSame(h: Heap, w: Route, m: nat, leaves: map<string, string>)
    ensures FewerLinks(Obj(leaves, Read(h, w, m).links), Read(h, w, m))
  {
  }

  lemma LeavesTame(h: Heap, r: nat, w: Route, m: nat, leaves: map<string, string>)
    requires Sound(h) && ([], r) in h.objs && Leads(h, [], r, w) == Some(m)
    ensures var g := Poke(h, w, m, Obj(leaves, Read(h, w, m).links), 0);
            Tame(h, r, g, r, [], r) && InPlace(h, r, g)
  {
    hide *;
    var o := Obj(leaves, Read(h, w, m).links);
    FewerSame(h, w, m, leaves);
    FewerTame(h, r, w, m, o);
    forall v
      ensures Leads(Poke(h, w, m, o, 0), [], r, v) == Leads(h, [], r, v)
    {
      LeavesLead(h, r, w, m, leaves, v);
    }
    InPlaceIs(h, r, Poke(h, w, m, o, 0));
  }

  // ---------------------------------------------------------------- writing in place, step by step

  lemma WroteMore(h: Heap, r: nat, g: Heap, u: Tree, f: Heap, t: Tree)
    requires WroteInPlace(h, r, g, u) && WroteInPlace(g, r, f, t)
    ensures WroteInPlace(h, r, f, t)
  {
    hide Leads, Shows, Tame, InPlace;
    TameParts(h, r, g, r, [], r);
    TameMore(h, r, g, r, f, r, [], r);
    InPlaceMore(h, r, g, f);
  }

  lemma WroteIf(h: Heap, r: nat, g: Heap, u: Tree)
    requires Shows(g, r, u) && Tame(h, r, g, r, [], r) && InPlace(h, r, g)
    ensures WroteInPlace(h, r, g, u)
  {
  }

  /** GetOrCreateNode writes in place. */
  lemma EnsureWrites(h: Heap, r: nat, t: Tree, p: Path)
    requires Sound(h) && ([], r) in h.objs && Shows(h, r, t)
    ensures var g := Ensure(h, r, ToRoute(p));
            && WroteInPlace(h, r, g, Create(t, p)) && Shows(g, r, Create(t, p)) && Sound(g) && ([], r) in g.objs
            && Leads(g, [], r, ToRoute(p)).Some?
  {
    hide *;
    EnsureTame(h, r, ToRoute(p));
    EnsureSees(h, r, p, t);
    WroteIf(h, r, Ensure(h, r, ToRoute(p)), Create(t, p));
  }

  /** A leaf is set. */
  lemma WritesLeaf(h: Heap, r: nat, t: Tree, q: Path, v: string) returns (g: Heap)
    requires Sound(h) && ([], r) in h.objs && Shows(h, r, t) && q != [] && Last(q).keys == map[] && Create(t, Init(q)) == t
    ensures WroteInPlace(h, r, g, t[q := Leaf(v)])
  {
    hide *;
    var w := ToRoute(Init(q));
    var e := Ensure(h, r, w);
    EnsureWrites(h, r, t, Init(q));
    var m := Leads(e, [], r, w).value;
    var leaves := Read(e, w, m).leaves[Last(q).name := v];
    g := Poke(e, w, m, Obj(leaves, Read(e, w, m).links), 0);
    LeavesTame(e, r, w, m, leaves);
    forall x
      ensures Sees(g, [], r, x) == At(t[q := Leaf(v)], x)
    {
      LeavesSeen(e, r, w, m, leaves, x);
      ShowsAt(e, r, t);
      SeesIs(e, r, x);
      AtIs(t, x);
      AtIs(t[q := Leaf(v)], x);
      if x != [] {
        LeafOf(e, r, w, m, Last(x).name);
        AtIs(leaves, Last(x).name);
        AtIs(Read(e, w, m).leaves, Last(x).name);
        SameRoute(Init(x), Init(q));
        InitLast(x);
        InitLast(q);
        assert Last(x) == Elem(Last(x).name, Last(x).keys) && Last(q) == Elem(Last(q).name, Last(q).keys);
      }
    }
    ShowsIf(g, r, t[q := Leaf(v)]);
    WroteIf(e, r, g, t[q := Leaf(v)]);
    WroteMore(h, r, e, t, g, t[q := Leaf(v)]);
  }

  /** A list entry is made, still without leaves. */
  lemma WritesEntry(h: Heap, r: nat, t: Tree, q: Path) returns (g: Heap)
    requires Sound(h) && ([], r) in h.objs && Shows(h, r, t) && q != [] && Last(q).keys != map[] && Create(t, Init(q)) == t
    ensures WroteInPlace(h, r, g, t[q := ListEntry])
  {
    hide *;
    var e, w := Ensure(h, r, ToRoute(q)), ToRoute(q);
    EnsureWrites(h, r, t, q);
    CreateStep(t, q);
    EntrySeen(h, r, q);
    ShowsAt(h, r, t);
    AtIs(t, q);
    if q in t {
      assert t[q := ListEntry] == t;
      return e;
    }
    var m := Leads(e, [], r, w).value;
    g := Poke(e, w, m, Obj(map[], Read(e, w, m).links), 0);
    LeavesTame(e, r, w, m, map[]);
    forall x
      ensures Sees(g, [], r, x) == At(t[q := ListEntry], x)
    {
      LeavesSeen(e, r, w, m, map[], x);
      ShowsAt(e, r, t + NewEntry(q));
      AtIs(t + NewEntry(q), x);
      AtIs(t[q := ListEntry], x);
      AtIs(t, x);
      if x != [] {
        NewEntryIs(q, x);
        SameRoute(Init(x), q);
        AtIs<string, string>(map[], Last(x).name);
        if Init(x) == q && Last(x).keys == map[] {
          NoneBelowMissing(h, r, q, x);
        }
      } else {
        NewEntryBelow(q);
      }
    }
    ShowsIf(g, r, t[q := ListEntry]);
    WroteIf(e, r, g, t[q := ListEntry]);
    WroteMore(h, r, e, t + NewEntry(q), g, t[q := ListEntry]);
  }

  lemma CreateStep(t: Tree, q: Path)
    requires q != [] && Last(q).keys != map[] && Create(t, Init(q)) == t
    ensures Create(t, q) == if q in t then t else t + NewEntry(q)
  {
  }

  lemma EntrySeen(h: Heap, r: nat, q: Path)
    requires q != [] && Last(q).keys != map[]
    ensures Sees(h, [], r, q) == if Leads(h, [], r, ToRoute(q)).Some? then Some(ListEntry) else None
  {
  }

  lemma NoneBelowMissing(h: Heap, r: nat, q: Path, x: Path)
    requires q != [] && Last(q).keys != map[] && Sees(h, [], r, q) == None && x != [] && Init(x) == q && Last(x).keys == map[]
    ensures Sees(h, [], r, x) == None
  {
  }

  // ---------------------------------------------------------------- all cells of a value

  lemma Longest(cells: Tree) returns (q: Path)
    requires cells != map[]
    ensures q in cells && forall x :: x in cells ==> |x| <= |q|
    decreases |cells|
  {
    q :| q in cells;
    var rest := cells - {q};
    assert cells == rest[q := cells[q]];
    if rest != map[] {
      var x := Longest(rest);
      if |x| > |q| {
        q := x;
      }
    }
  }

  /** The entries above the longest path are there before it is written. */
  lemma EntriesFirst(t: Tree, p: Path, cells: Tree, q: Path)
    requires Fits(p, Decoded(cells, true)) && q in cells && p <= q && forall x :: x in cells ==> |x| <= |q|
    requires forall i :: 0 <= i < |p| ==> EntryThere(t, p, i)
    ensures q != [] && Create(t + (cells - {q}), Init(q)) == t + (cells - {q})
    ensures Fits(p, Decoded(cells - {q}, true))
  {
    var rest := cells - {q};
    forall i | 0 <= i < |q| - 1
      ensures EntryThere(t + rest, Init(q), i)
    {
      assert Init(q)[..i + 1] == q[..i + 1];
      if i < |p| {
        assert q[..i + 1] == p[..i + 1];
        assert EntryThere(t, p, i);
      } else {
        assert EntryThere(cells, q, i);
      }
    }
    CreateNothing(t + rest, Init(q));
    forall x, i: nat | x in rest && p <= x && |p| <= i < |x| - 1
      ensures EntryThere(rest, x, i)
    {
      assert EntryThere(cells, x, i);
    }
    hide EntryThere;
    assert forall x :: x in rest ==> x in cells && rest[x] == cells[x];
  }

  lemma CellLast(t: Tree, cells: Tree, q: Path)
    requires q in cells
    ensures t + cells == (t + (cells - {q}))[q := cells[q]]
    ensures |cells - {q}| < |cells| && forall x :: x in cells - {q} ==> x in cells
  {
    assert cells == (cells - {q})[q := cells[q]];
  }

  lemma {:induction false} WritesCells(h: Heap, r: nat, t: Tree, p: Path, cells: Tree) returns (g: Heap)
    requires Sound(h) && ([], r) in h.objs && Shows(h, r, t)
    requires Fits(p, Decoded(cells, true)) && forall q :: q in cells ==> p <= q
    requires forall i :: 0 <= i < |p| ==> EntryThere(t, p, i)
    ensures WroteInPlace(h, r, g, t + cells)
    decreases |cells|
  {
    hide *;
    if cells == map[] {
      assert t + cells == t;
      TameItself(h, r);
      InPlaceIs(h, r, h);
      WroteIf(h, r, h, t);
      return h;
    }
    var q := Longest(cells);
    var rest := cells - {q};
    EntriesFirst(t, p, cells, q);
    CellLast(t, cells, q);
    var f := WritesCells(h, r, t, p, rest);
    WroteParts(h, r, f, t + rest);
    FitsAt(p, cells, q);
    if cells[q].Leaf? {
      g := WritesLeaf(f, r, t + rest, q, cells[q].value);
    } else {
      g := WritesEntry(f, r, t + rest, q);
    }
    WroteMore(h, r, f, t + rest, g, t + cells);
  }

  lemma FitsAt(p: Path, cells: Tree, q: Path)
    requires Fits(p, Decoded(cells, true)) && q in cells && p <= q
    ensures q != [] && (cells[q].ListEntry? <==> Last(q).keys != map[])
  {
  }

  lemma WroteParts(h: Heap, r: nat, g: Heap, u: Tree)
    requires WroteInPlace(h, r, g, u)
    ensures Shows(g, r, u) && Sound(g) && ([], r) in g.objs
  {
  }

  // ---------------------------------------------------------------- the writer

  lemma {:induction false} CreatesAll(t: Tree, p: Path)
    ensures forall q :: q in t ==> q in Create(t, p)
    ensures forall i :: 0 <= i < |p| ==> EntryThere(Create(t, p), p, i)
  {
    if p != [] {
      CreatesAll(t, Init(p));
      forall i | 0 <= i < |p|
        ensures EntryThere(Create(t, p), p, i)
      {
        if i < |p| - 1 {
          assert Init(p)[..i + 1] == p[..i + 1];
          assert EntryThere(Create(t, Init(p)), Init(p), i);
        } else {
          assert p[..i + 1] == p;
        }
      }
    }
  }

  lemma WritesTyped(root: Entry, h: Heap, r: nat, t: Tree, p: Path, d: Decoded) returns (g: Heap)
    requires Sound(h) && ([], r) in h.objs && Shows(h, r, t) && Fits(p, d)
    ensures WroteInPlace(h, r, g, WriteTyped(root, t, p, d))
  {
    hide *;
    TypedIs(root, t, p, d);
    if Reach(root, p) < |p| {
      EnsureWrites(h, r, t, p[..Reach(root, p)]);
      g := Ensure(h, r, ToRoute(p[..Reach(root, p)]));
    } else {
      EnsureWrites(h, r, t, p);
      CreatesAll(t, p);
      FitsBelow(p, d);
      g := WritesCells(Ensure(h, r, ToRoute(p)), r, Create(t, p), p, Sub(d.cells, p));
      WroteMore(h, r, Ensure(h, r, ToRoute(p)), Create(t, p), g, WriteTyped(root, t, p, d));
    }
  }

  lemma TypedIs(root: Entry, t: Tree, p: Path, d: Decoded)
    ensures WriteTyped(root, t, p, d)
            == if Reach(root, p) < |p| then Create(t, p[..Reach(root, p)]) else Create(t, p) + Sub(d.cells, p)
  {
  }

  lemma FitsBelow(p: Path, d: Decoded)
    requires Fits(p, d)
    ensures Fits(p, Decoded(Sub(d.cells, p), true)) && forall q :: q in Sub(d.cells, p) ==> p <= q
  {
    forall q, i: nat | q in Sub(d.cells, p) && |p| <= i < |q| - 1
      ensures EntryThere(Sub(d.cells, p), q, i)
    {
      assert EntryThere(d.cells, q, i);
      assert p <= q[..i + 1];
    }
    hide EntryThere;
  }

  ghost predicate Writable(root: Entry, h: Heap, r: nat, p: Path, d: Decoded) {
    exists g :: WroteInPlace(h, r, g, WriteTyped(root, TreeFrom(h, [], r), p, d))
  }

  ghost function SomeWrite(root: Entry, h: Heap, r: nat, p: Path, d: Decoded): Heap {
    if Writable(root, h, r, p, d) then
      var g :| WroteInPlace(h, r, g, WriteTyped(root, TreeFrom(h, [], r), p, d)); g
    else h
  }

  /** What is taken of the writer holds of one. */
  lemma WriterExists(root: Entry)
    ensures exists write: Writer :: Writes(root, write)
  {
    ghost var write: Writer := (h: Heap, r: nat, p: Path, d: Decoded) => SomeWrite(root, h, r, p, d);
    forall h, r, p, d, t | Sound(h) && ([], r) in h.objs && Shows(h, r, t) && Fits(p, d)
      ensures WroteInPlace(h, r, write(h, r, p, d), WriteTyped(root, t, p, d))
    {
      hide *;
      var g := WritesTyped(root, h, r, t, p, d);
      ShownIs(h, r, t);
      IsWritten(root, h, r, p, d, g);
    }
    hide WroteInPlace, WriteTyped, Sound, Shows, Fits, SomeWrite;
    assert Writes(root, write);
  }

  lemma IsWritten(root: Entry, h: Heap, r: nat, p: Path, d: Decoded, g: Heap)
    requires WroteInPlace(h, r, g, WriteTyped(root, TreeFrom(h, [], r), p, d))
    ensures WroteInPlace(h, r, SomeWrite(root, h, r, p, d), WriteTyped(root, TreeFrom(h, [], r), p, d))
  {
    hide WroteInPlace, WriteTyped, TreeFrom;
  }
}
