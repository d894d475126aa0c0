/** The Go objects behind the configuration tree: structs that point to each other, and what is seen from one of them.
    A struct or a list is one object at its place; a place can have had several objects, told apart by a number. */
module Objects {
  import opened Text
  import opened PathText
  import opened DataTree

  /** A field of a struct that holds another struct, one that holds a list, and an entry of a list. */
  datatype Step = Field(name: string) | Table(name: string) | Entry(keys: map<string, string>)

  /** A place in the tree of objects. */
  type Route = seq<Step>

  function Steps(e: Elem): (w: Route)
    ensures 1 <= |w| <= 2
  {
    if e.keys == map[] then [Field(e.name)] else [Table(e.name), Entry(e.keys)]
  }

  function ToRoute(p: Path): Route {
    if p == [] then [] else ToRoute(Init(p)) + Steps(Last(p))
  }

  datatype Obj = Obj(leaves: map<string, string>, links: map<Step, nat>)

  datatype Heap = Heap(objs: map<(Route, nat), Obj>, next: nat)

  const EMPTY := Obj(map[], map[])

  function Read(h: Heap, w: Route, n: nat): Obj {
    if (w, n) in h.objs then h.objs[(w, n)] else EMPTY
  }

  /** The object at w as seen from the object n at b. */
  function Leads(h: Heap, b: Route, n: nat, w: Route): Option<nat>
    decreases |w|
  {
    if |w| <= |b| then if w == b then Some(n) else None
    else
      var m := Leads(h, b, n, Init(w));
      if m.None? then None else At(Read(h, Init(w), m.value).links, Last(w))
  }

  /** The leaf of that name in the object at w. */
  function LeafAt(h: Heap, b: Route, n: nat, w: Route, name: string): Option<string> {
    var m := Leads(h, b, n, w);
    if m.None? then None else At(Read(h, w, m.value).leaves, name)
  }

  /** What is at the path q as seen from there. */
  function Sees(h: Heap, b: Route, n: nat, q: Path): Option<Cell> {
    if q == [] then None
    else if Last(q).keys != map[] then if Leads(h, b, n, ToRoute(q)).Some? then Some(ListEntry) else None
    else
      var leaf := LeafAt(h, b, n, ToRoute(Init(q)), Last(q).name);
      if leaf.None? then None else Some(Leaf(leaf.value))
  }

  /** Links lead to objects. */
  ghost predicate Sound(h: Heap) {
    && (forall k :: k in h.objs ==> k.1 < h.next)
    && (forall k, s :: k in h.objs && s in h.objs[k].links ==> (k.0 + [s], h.objs[k].links[s]) in h.objs)
  }

  // ---------------------------------------------------------------- places and paths

  function Unroute(w: Route): Path
    decreases |w|
  {
    if w == [] then []
    else
      match Last(w)
      case Field(name) => Unroute(Init(w)) + [Elem(name, map[])]
      case Table(_) => Unroute(Init(w))
      case Entry(keys) =>
        if |w| >= 2 && Last(Init(w)).Table? then Unroute(Init(Init(w))) + [Elem(Last(Init(w)).name, keys)] else []
  }

  lemma {:induction false} UnrouteRoute(p: Path)
    ensures Unroute(ToRoute(p)) == p
  {
    if p != [] {
      UnrouteRoute(Init(p));
      hide ToRoute, Unroute;
      RouteLast(p);
      UnrouteStep(ToRoute(Init(p)), Last(p));
      InitLast(p);
    }
  }

  lemma UnrouteStep(w: Route, e: Elem)
    ensures Unroute(w + Steps(e)) == Unroute(w) + [e]
  {
    if e.keys == map[] {
      assert Init(w + [Field(e.name)]) == w;
    } else {
      var v := w + [Table(e.name), Entry(e.keys)];
      assert Init(v) == w + [Table(e.name)] && Init(Init(v)) == w;
    }
  }

  lemma {:induction false} RoutesGrow(p: Path, q: Path)
    requires p <= q
    ensures ToRoute(p) <= ToRoute(q)
    decreases |q|
  {
    if p != q {
      assert p <= Init(q);
      RoutesGrow(p, Init(q));
    }
  }

  /** One place is below another exactly as one path is below the other. */
  lemma {:induction false} RouteBelow(p: Path, q: Path)
    ensures ToRoute(p) <= ToRoute(q) <==> p <= q
    decreases |q|
  {
    if p <= q {
      RoutesGrow(p, q);
    } else if ToRoute(p) <= ToRoute(q) {
      RouteIsBelow(p, q);
    }
  }

  lemma {:induction false} RouteIsBelow(p: Path, q: Path)
    requires ToRoute(p) <= ToRoute(q)
    ensures p <= q
    decreases |q|
  {
    if q != [] && p != [] {
      var w, s := ToRoute(Init(q)), Steps(Last(q));
      if ToRoute(p) <= w {
        RouteIsBelow(p, Init(q));
      } else {
        SameEnd(p, q);
      }
    }
  }

  /** A place that ends with the last element of q, or in the middle of it, is that of q. */
  lemma SameEnd(p: Path, q: Path)
    requires p != [] && q != [] && ToRoute(p) <= ToRoute(q) && !(ToRoute(p) <= ToRoute(Init(q)))
    ensures p == q
  {
    hide *;
    RouteLast(p);
    RouteLast(q);
    EndsTogether(ToRoute(p), ToRoute(Init(q)), Steps(Last(q)));
    SameRoute(p, q);
  }

  lemma RouteLast(p: Path)
    requires p != []
    ensures ToRoute(p) == ToRoute(Init(p)) + Steps(Last(p)) && !Last(Steps(Last(p))).Table?
    ensures |Steps(Last(p))| == 2 ==> Steps(Last(p))[0].Table?
    ensures ToRoute(p) != [] && Last(ToRoute(p)) == Last(Steps(Last(p)))
  {
  }

  lemma EndsTogether(v: Route, w: Route, s: Route)
    requires v != [] && v <= w + s && !(v <= w) && 1 <= |s| <= 2 && !Last(v).Table? && (|s| == 2 ==> s[0].Table?)
    ensures v == w + s
  {
    assert v == (w + s)[..|v|];
    assert Last(v) == (w + s)[|v| - 1] && (w + s)[|w|] == s[0];
  }

  // ---------------------------------------------------------------- following links

  lemma {:induction false} LeadsBelow(h: Heap, b: Route, n: nat, w: Route)
    ensures Leads(h, b, n, w).Some? ==> b <= w
    decreases |w|
  {
    if |w| > |b| {
      LeadsBelow(h, b, n, Init(w));
    }
  }

  lemma {:induction false} LeadsInside(h: Heap, b: Route, n: nat, w: Route)
    requires Sound(h) && (b, n) in h.objs
    ensures Leads(h, b, n, w).Some? ==> (w, Leads(h, b, n, w).value) in h.objs && Leads(h, b, n, w).value < h.next
    decreases |w|
  {
    if |w| > |b| {
      LeadsInside(h, b, n, Init(w));
      InitLast(w);
      var m := Leads(h, b, n, Init(w));
      if m.Some? {
        assert (Init(w), m.value) in h.objs;
      }
    }
  }

  lemma {:induction false} LeadsSplit(h: Heap, b: Route, n: nat, w: Route, v: Route)
    requires b <= w <= v
    ensures Leads(h, b, n, v) == var m := Leads(h, b, n, w); if m.None? then None else Leads(h, w, m.value, v)
    decreases |v|
  {
    if w != v {
      assert w <= Init(v);
      LeadsSplit(h, b, n, w, Init(v));
    }
  }

  lemma LeadsStep(h: Heap, b: Route, n: nat, w: Route, s: Step)
    requires b <= w
    ensures Leads(h, b, n, w + [s]) == var m := Leads(h, b, n, w); if m.None? then None else At(Read(h, w, m.value).links, s)
  {
    assert Init(w + [s]) == w;
  }

  /** One object is overwritten, or made. */
  function Poke(h: Heap, w: Route, n: nat, o: Obj, grow: nat): Heap {
    Heap(h.objs[(w, n) := o], h.next + grow)
  }

  /** What is not below the object is found as before. */
  lemma {:induction false} PokeAbove(h: Heap, b: Route, n: nat, w: Route, m: nat, o: Obj, grow: nat, v: Route)
    requires !(w <= v) || w == v
    ensures Leads(Poke(h, w, m, o, grow), b, n, v) == Leads(h, b, n, v)
    decreases |v|
  {
    if |v| > |b| {
      InitLast(v);
      PokeAbove(h, b, n, w, m, o, grow, Init(v));
    }
  }

  /** Who does not see the object finds everything as before. */
  lemma {:induction false} PokeOther(h: Heap, b: Route, n: nat, w: Route, m: nat, o: Obj, grow: nat, v: Route)
    requires Leads(h, b, n, w) != Some(m)
    ensures Leads(Poke(h, w, m, o, grow), b, n, v) == Leads(h, b, n, v)
    decreases |v|
  {
    if |v| > |b| {
      PokeOther(h, b, n, w, m, o, grow, Init(v));
    }
  }

  /** And what is below is found through the new links. */
  lemma PokeBelow(h: Heap, b: Route, n: nat, w: Route, m: nat, o: Obj, grow: nat, v: Route)
    requires Leads(h, b, n, w) == Some(m) && w < v
    ensures Leads(Poke(h, w, m, o, grow), b, n, v)
            == var k := At(o.links, v[|w|]); if k.None? then None else Leads(h, w + [v[|w|]], k.value, v)
  {
    hide *;
    var g, s := Poke(h, w, m, o, grow), v[|w|];
    LeadsBelow(h, b, n, w);
    PokeAbove(h, b, n, w, m, o, grow, w);
    LeadsStep(g, b, n, w, s);
    PokeRead(h, w, m, o, grow);
    assert w + [s] <= v;
    LeadsSplit(g, b, n, w + [s], v);
    var k := At(o.links, s);
    if k.Some? {
      NotBelowItself(h, w, s, k.value, m);
      PokeOther(h, w + [s], k.value, w, m, o, grow, v);
    }
  }

  lemma PokeRead(h: Heap, w: Route, m: nat, o: Obj, grow: nat)
    ensures Read(Poke(h, w, m, o, grow), w, m) == o
    ensures forall v, k :: v != w || k != m ==> Read(Poke(h, w, m, o, grow), v, k) == Read(h, v, k)
  {
  }

  lemma NotBelowItself(h: Heap, w: Route, s: Step, n: nat, m: nat)
    ensures Leads(h, w + [s], n, w) != Some(m)
  {
    LeadsBelow(h, w + [s], n, w);
  }

  // ---------------------------------------------------------------- what changes, and for whom

  /** Everything in place stays there. */
  ghost predicate InPlace(h: Heap, r: nat, g: Heap) {
    forall v :: Leads(h, [], r, v).Some? ==> Leads(g, [], r, v) == Leads(h, [], r, v)
  }

  /** From (b, n) and from (c, k) no object is seen in common. */
  ghost predicate Separate(h: Heap, b: Route, n: nat, c: Route, k: nat) {
    forall v :: Leads(h, b, n, v).Some? ==> Leads(h, b, n, v) != Leads(h, c, k, v)
  }

  /** The tree under the root r of h has become that under the root s of g: objects that it did not have are as they
      were, and it has only its own objects, new ones, and those that are seen from (b, n). */
  ghost predicate Tame(h: Heap, r: nat, g: Heap, s: nat, b: Route, n: nat) {
    && Sound(g) && ([], s) in g.objs && h.next <= g.next
    && (forall k :: k in h.objs ==> k in g.objs)
    && (forall v, k: nat :: k < h.next && Leads(h, [], r, v) != Some(k) ==> Read(g, v, k) == Read(h, v, k))
    && (forall v :: Owned(h, r, b, n, v, Leads(g, [], s, v)))
  }

  ghost predicate Owned(h: Heap, r: nat, b: Route, n: nat, v: Route, k: Option<nat>) {
    k.Some? ==> k.value >= h.next || k == Leads(h, [], r, v) || k == Leads(h, b, n, v)
  }

  /** Who shares nothing with the tree, nor with what it takes over, does not notice. */
  lemma {:induction false} TameLeads(h: Heap, r: nat, g: Heap, s: nat, b: Route, n: nat, c: Route, k: nat, v: Route)
    requires Sound(h) && (c, k) in h.objs && Tame(h, r, g, s, b, n) && Separate(h, [], r, c, k)
    ensures Leads(g, c, k, v) == Leads(h, c, k, v)
    ensures Leads(h, c, k, v).Some? ==> Read(g, v, Leads(h, c, k, v).value) == Read(h, v, Leads(h, c, k, v).value)
    decreases |v|
  {
    if |v| > |c| {
      TameLeads(h, r, g, s, b, n, c, k, Init(v));
    }
    LeadsInside(h, c, k, v);
  }

  lemma TameKeeps(h: Heap, r: nat, g: Heap, s: nat, b: Route, n: nat, c: Route, k: nat)
    requires Sound(h) && (c, k) in h.objs && Tame(h, r, g, s, b, n)
    requires Separate(h, [], r, c, k) && Separate(h, b, n, c, k)
    ensures forall v :: Leads(g, c, k, v) == Leads(h, c, k, v)
    ensures forall q :: Sees(g, c, k, q) == Sees(h, c, k, q)
    ensures Separate(g, [], s, c, k) && (c, k) in g.objs
  {
    forall v
      ensures Leads(g, c, k, v) == Leads(h, c, k, v)
      ensures Leads(g, [], s, v).Some? ==> Leads(g, [], s, v) != Leads(g, c, k, v)
    {
      TameLeads(h, r, g, s, b, n, c, k, v);
      LeadsInside(h, c, k, v);
      assert Owned(h, r, b, n, v, Leads(g, [], s, v));
    }
    forall q
      ensures Sees(g, c, k, q) == Sees(h, c, k, q)
    {
      TameLeads(h, r, g, s, b, n, c, k, ToRoute(q));
      if q != [] {
        TameLeads(h, r, g, s, b, n, c, k, ToRoute(Init(q)));
      }
    }
  }

  lemma TameMore(h: Heap, r: nat, g: Heap, s: nat, f: Heap, t: nat, b: Route, n: nat)
    requires Tame(h, r, g, s, [], r) && Tame(g, s, f, t, b, n)
    requires forall v :: Owned(h, r, b, n, v, Leads(g, b, n, v))
    ensures Tame(h, r, f, t, b, n)
  {
    hide Leads, Read, Sound;
    forall v
      ensures Owned(h, r, b, n, v, Leads(f, [], t, v))
    {
      assert Owned(g, s, b, n, v, Leads(f, [], t, v)) && Owned(h, r, [], r, v, Leads(g, [], s, v));
      assert Owned(h, r, b, n, v, Leads(g, b, n, v));
    }
    forall v, k: nat | k < h.next && Leads(h, [], r, v) != Some(k)
      ensures Read(f, v, k) == Read(h, v, k)
    {
      assert Owned(h, r, [], r, v, Leads(g, [], s, v));
    }
  }

  lemma TameItself(h: Heap, r: nat)
    requires Sound(h) && ([], r) in h.objs
    ensures Tame(h, r, h, r, [], r)
  {
  }

  // ---------------------------------------------------------------- links and leaves taken away

  ghost predicate FewerLinks(o: Obj, was: Obj) {
    forall s :: s in o.links ==> s in was.links && o.links[s] == was.links[s]
  }

  lemma FewerLeads(h: Heap, b: Route, n: nat, w: Route, m: nat, o: Obj, v: Route)
    requires Leads(h, b, n, w) == Some(m) && FewerLinks(o, Read(h, w, m))
    ensures Leads(Poke(h, w, m, o, 0), b, n, v)
            == if w < v && v[|w|] !in o.links then None else Leads(h, b, n, v)
  {
    hide Leads, Poke, Read;
    if w < v {
      LeadsBelow(h, b, n, w);
      PokeBelow(h, b, n, w, m, o, 0, v);
      var s := v[|w|];
      assert w + [s] <= v;
      LeadsStep(h, b, n, w, s);
      LeadsSplit(h, b, n, w + [s], v);
    } else {
      PokeAbove(h, b, n, w, m, o, 0, v);
    }
  }

  lemma FewerTame(h: Heap, r: nat, w: Route, m: nat, o: Obj)
    requires Sound(h) && ([], r) in h.objs && Leads(h, [], r, w) == Some(m) && FewerLinks(o, Read(h, w, m))
    ensures Tame(h, r, Poke(h, w, m, o, 0), r, [], r)
  {
    var g := Poke(h, w, m, o, 0);
    LeadsInside(h, [], r, w);
    assert Sound(g);
    forall v
      ensures Owned(h, r, [], r, v, Leads(g, [], r, v))
    {
      FewerLeads(h, [], r, w, m, o, v);
    }
  }

  // ---------------------------------------------------------------- the tree that is seen

  function Places(h: Heap): set<Path> {
    (set k | k in h.objs :: Unroute(k.0)) + (set k, name | k in h.objs && name in h.objs[k].leaves :: Unroute(k.0) + [Elem(name, map[])])
  }

  /** All that is seen from (b, n). */
  function TreeFrom(h: Heap, b: Route, n: nat): Tree {
    map q | q in Places(h) && Sees(h, b, n, q).Some? :: Sees(h, b, n, q).value
  }

  lemma TreeAt(h: Heap, b: Route, n: nat)
    requires Sound(h) && (b, n) in h.objs
    ensures forall q :: At(TreeFrom(h, b, n), q) == Sees(h, b, n, q)
  {
    forall q | Sees(h, b, n, q).Some?
      ensures q in Places(h)
    {
      InitLast(q);
      if Last(q).keys != map[] {
        LeadsInside(h, b, n, ToRoute(q));
        UnrouteRoute(q);
      } else {
        LeadsInside(h, b, n, ToRoute(Init(q)));
        UnrouteRoute(Init(q));
        assert q == Init(q) + [Elem(Last(q).name, map[])];
      }
    }
  }

  // ---------------------------------------------------------------- deleting a node

  /** What the step names is taken out of the object. */
  function Without(o: Obj, s: Step): Obj {
    Obj(if s.Field? then o.leaves - {s.name} else o.leaves, o.links - {s})
  }

  /** ytypes.DeleteNode: the parent loses its field or its entry. */
  function Remove(h: Heap, r: nat, p: Path): Heap
    requires p != []
  {
    Cut(h, r, Init(ToRoute(p)), Last(ToRoute(p)))
  }

  function Cut(h: Heap, r: nat, w: Route, s: Step): Heap {
    var m := Leads(h, [], r, w);
    if m.None? then h else Poke(h, w, m.value, Without(Read(h, w, m.value), s), 0)
  }

  lemma CutLeads(h: Heap, r: nat, w: Route, s: Step, v: Route)
    ensures Leads(Cut(h, r, w, s), [], r, v) == if w + [s] <= v then None else Leads(h, [], r, v)
  {
    hide *;
    CutIs(h, r, w, s);
    var m := Leads(h, [], r, w);
    Ahead(w, s, v);
    if m.Some? {
      FewerLeads(h, [], r, w, m.value, Without(Read(h, w, m.value), s), v);
      if w < v && v[|w|] != s && v[|w|] !in Read(h, w, m.value).links {
        NoLink(h, r, w, m.value, v);
      }
    } else if w <= v {
      LeadsSplit(h, [], r, w, v);
    }
  }

  lemma CutIs(h: Heap, r: nat, w: Route, s: Step)
    ensures var m := Leads(h, [], r, w);
            && Cut(h, r, w, s) == (if m.None? then h else Poke(h, w, m.value, Without(Read(h, w, m.value), s), 0))
            && (m.Some? ==> FewerLinks(Without(Read(h, w, m.value), s), Read(h, w, m.value)))
            && (m.Some? ==> Without(Read(h, w, m.value), s).links.Keys == Read(h, w, m.value).links.Keys - {s})
  {
  }

  lemma Ahead(w: Route, s: Step, v: Route)
    ensures w + [s] <= v <==> w < v && v[|w|] == s
  {
  }

  lemma NoLink(h: Heap, r: nat, w: Route, m: nat, v: Route)
    requires Leads(h, [], r, w) == Some(m) && w < v && v[|w|] !in Read(h, w, m).links
    ensures Leads(h, [], r, v) == None
  {
    var s := v[|w|];
    assert w + [s] <= v;
    LeadsStep(h, [], r, w, s);
    LeadsSplit(h, [], r, w + [s], v);
  }

  lemma CutLeaf(h: Heap, r: nat, w: Route, s: Step, v: Route, name: string)
    ensures LeafAt(Cut(h, r, w, s), [], r, v, name)
            == if w + [s] <= v || (v == w && s == Field(name)) then None else LeafAt(h, [], r, v, name)
  {
    hide Leads, Poke, Read;
    CutLeads(h, r, w, s, v);
    CutIs(h, r, w, s);
    var m := Leads(h, [], r, w);
    if m.Some? {
      PokeRead(h, w, m.value, Without(Read(h, w, m.value), s), 0);
    }
  }

  lemma FieldRoute(p: Path, q: Path)
    requires p != [] && q != [] && Last(q).keys == map[]
    ensures ToRoute(Init(q)) == Init(ToRoute(p)) && Last(ToRoute(p)) == Field(Last(q).name) <==> p == q
  {
    InitLast(ToRoute(p));
    InitLast(ToRoute(q));
    if ToRoute(p) == ToRoute(q) {
      RouteBelow(p, q);
      RouteBelow(q, p);
    }
  }

  lemma RemoveSees(h: Heap, r: nat, p: Path)
    requires p != []
    ensures forall q :: Sees(Remove(h, r, p), [], r, q) == if p <= q then None else Sees(h, [], r, q)
  {
    forall q
      ensures Sees(Remove(h, r, p), [], r, q) == if p <= q then None else Sees(h, [], r, q)
    {
      var w, s := Init(ToRoute(p)), Last(ToRoute(p));
      InitLast(ToRoute(p));
      hide Leads, Cut, ToRoute, LeafAt;
      RouteBelow(p, q);
      CutLeads(h, r, w, s, ToRoute(q));
      if q != [] {
        RouteBelow(p, Init(q));
        if Last(q).keys == map[] {
          CutLeaf(h, r, w, s, ToRoute(Init(q)), Last(q).name);
          FieldRoute(p, q);
        }
      }
    }
  }

  lemma RemoveTree(h: Heap, r: nat, p: Path)
    requires Sound(h) && ([], r) in h.objs && p != []
    ensures Tame(h, r, Remove(h, r, p), r, [], r)
    ensures TreeFrom(Remove(h, r, p), [], r) == Delete(TreeFrom(h, [], r), p)
  {
    hide Leads, Sees, TreeFrom, Read;
    var w, s := Init(ToRoute(p)), Last(ToRoute(p));
    CutIs(h, r, w, s);
    var m := Leads(h, [], r, w);
    if m.Some? {
      FewerTame(h, r, w, m.value, Without(Read(h, w, m.value), s));
    } else {
      TameItself(h, r);
    }
    var g := Remove(h, r, p);
    RemoveSees(h, r, p);
    TreeAt(h, [], r);
    TreeAt(g, [], r);
    forall q
      ensures At(TreeFrom(g, [], r), q) == At(Delete(TreeFrom(h, [], r), p), q)
    {
      DeleteAt(TreeFrom(h, [], r), p, q);
    }
    SameMap(TreeFrom(g, [], r), Delete(TreeFrom(h, [], r), p));
  }

  // ---------------------------------------------------------------- making the objects on the way

  /** A new entry of a list has the leaves of its keys. */
  function NewObj(s: Step): Obj {
    if s.Entry? then Obj(s.keys, map[]) else EMPTY
  }

  /** The object at the step below (w, n) is made if it is missing. */
  function Down(h: Heap, w: Route, n: nat, s: Step): Heap {
    var o := Read(h, w, n);
    if s in o.links then h
    else Poke(Poke(h, w + [s], h.next, NewObj(s), 1), w, n, o.(links := o.links[s := h.next]), 0)
  }

  /** GetOrCreateNode */
  function Ensure(h: Heap, r: nat, w: Route): Heap
    decreases |w|
  {
    if w == [] then h
    else
      var g := Ensure(h, r, Init(w));
      var m := Leads(g, [], r, Init(w));
      if m.None? then g else Down(g, Init(w), m.value, Last(w))
  }

  lemma FreshUnseen(h: Heap, b: Route, n: nat, v: Route)
    requires Sound(h) && (b, n) in h.objs
    ensures Leads(h, b, n, v) != Some(h.next)
  {
    LeadsInside(h, b, n, v);
  }

  /** A new link, and nothing behind it. */
  lemma DownLeads(h: Heap, r: nat, w: Route, m: nat, s: Step, v: Route)
    requires Sound(h) && ([], r) in h.objs && Leads(h, [], r, w) == Some(m) && s !in Read(h, w, m).links
    ensures Leads(Down(h, w, m, s), [], r, v) == if v == w + [s] then Some(h.next) else Leads(h, [], r, v)
  {
    hide Leads, Poke, Read, Sound;
    var o := Read(h, w, m);
    var h1, o1 := Poke(h, w + [s], h.next, NewObj(s), 1), o.(links := o.links[s := h.next]);
    FreshUnseen(h, [], r, w + [s]);
    PokeOther(h, [], r, w + [s], h.next, NewObj(s), 1, v);
    PokeOther(h, [], r, w + [s], h.next, NewObj(s), 1, w);
    PokeRead(h, w + [s], h.next, NewObj(s), 1);
    if w < v {
      PokeBelow(h1, [], r, w, m, o1, 0, v);
      NewBehind(h1, w, s, h.next, v);
      BehindLink(h, r, w, m, v);
      if v[|w|] != s && v[|w|] in o.links {
        Elsewhere(h, w, v[|w|], o.links[v[|w|]], s);
        PokeOther(h, w + [v[|w|]], o.links[v[|w|]], w + [s], h.next, NewObj(s), 1, v);
      }
    } else {
      PokeAbove(h1, [], r, w, m, o1, 0, v);
    }
  }

  lemma NewBehind(h: Heap, w: Route, s: Step, n: nat, v: Route)
    requires w < v && Read(h, w + [s], n).links == map[]
    ensures v[|w|] == s ==> Leads(h, w + [s], n, v) == if v == w + [s] then Some(n) else None
  {
    hide *;
    LeadsHere(h, w + [s], n, w + [s]);
    if v[|w|] == s && v != w + [s] {
      assert w + [s] < v;
      var t := v[|w| + 1];
      assert w + [s] + [t] <= v;
      LeadsSplit(h, w + [s], n, w + [s] + [t], v);
      LeadsStep(h, w + [s], n, w + [s], t);
      NoKey(t);
    }
  }

  lemma NoKey(s: Step)
    ensures At<Step, nat>(map[], s) == None
  {
  }

  lemma BehindLink(h: Heap, r: nat, w: Route, m: nat, v: Route)
    requires Leads(h, [], r, w) == Some(m) && w < v
    ensures Leads(h, [], r, v) == var k := At(Read(h, w, m).links, v[|w|]); if k.None? then None else Leads(h, w + [v[|w|]], k.value, v)
  {
    hide *;
    var s := v[|w|];
    assert w + [s] <= v;
    LeadsStep(h, [], r, w, s);
    LeadsSplit(h, [], r, w + [s], v);
  }

  lemma Elsewhere(h: Heap, w: Route, t: Step, n: nat, s: Step)
    requires s != t
    ensures Leads(h, w + [t], n, w + [s]) == None
  {
    LeadsBelow(h, w + [t], n, w + [s]);
    assert (w + [t])[|w|] == t && (w + [s])[|w|] == s;
  }

  lemma DownRead(h: Heap, w: Route, m: nat, s: Step)
    requires s !in Read(h, w, m).links
    ensures var g := Down(h, w, m, s);
            && Read(g, w + [s], h.next) == NewObj(s) && Read(g, w, m).leaves == Read(h, w, m).leaves
            && forall v, k: nat :: (v != w || k != m) && (v != w + [s] || k != h.next) ==> Read(g, v, k) == Read(h, v, k)
  {
    assert w != w + [s];
  }

  lemma DownLeaf(h: Heap, r: nat, w: Route, m: nat, s: Step, v: Route, name: string)
    requires Sound(h) && ([], r) in h.objs && Leads(h, [], r, w) == Some(m) && s !in Read(h, w, m).links
    ensures LeafAt(Down(h, w, m, s), [], r, v, name)
            == if v == w + [s] then At(NewObj(s).leaves, name) else LeafAt(h, [], r, v, name)
  {
    DownLeads(h, r, w, m, s, v);
    DownRead(h, w, m, s);
    FreshUnseen(h, [], r, v);
    hide Leads, Down, Read, Sound;
  }

  lemma DownTame(h: Heap, r: nat, w: Route, m: nat, s: Step)
    requires Sound(h) && ([], r) in h.objs && Leads(h, [], r, w) == Some(m)
    ensures var g := Down(h, w, m, s);
            && Tame(h, r, g, r, [], r) && InPlace(h, r, g) && Leads(g, [], r, w + [s]).Some?
  {
    hide *;
    LeadsInside(h, [], r, w);
    LeadsStep(h, [], r, w, s);
    var g := Down(h, w, m, s);
    if s in Read(h, w, m).links {
      DownNot(h, w, m, s);
      TameItself(h, r);
      InPlaceIs(h, r, g);
      AtIs(Read(h, w, m).links, s);
    } else {
      forall v
        ensures Leads(g, [], r, v) == if v == w + [s] then Some(h.next) else Leads(h, [], r, v)
      {
        DownLeads(h, r, w, m, s, v);
      }
      AtIs(Read(h, w, m).links, s);
      DownSound(h, w, m, s);
      DownTamely(h, r, w, m, s);
      InPlaceIs(h, r, g);
    }
  }

  lemma DownNot(h: Heap, w: Route, m: nat, s: Step)
    requires s in Read(h, w, m).links
    ensures Down(h, w, m, s) == h
  {
  }

  lemma AtIs<K, V>(a: map<K, V>, k: K)
    ensures At(a, k) == if k in a then Some(a[k]) else None
  {
  }

  lemma InPlaceIs(h: Heap, r: nat, g: Heap)
    requires forall v :: Leads(h, [], r, v).Some? ==> Leads(g, [], r, v) == Leads(h, [], r, v)
    ensures InPlace(h, r, g)
  {
  }

  lemma DownTamely(h: Heap, r: nat, w: Route, m: nat, s: Step)
    requires ([], r) in h.objs && Leads(h, [], r, w) == Some(m) && s !in Read(h, w, m).links
    requires var g := Down(h, w, m, s);
             && Sound(g) && h.next <= g.next && (forall k :: k in h.objs ==> k in g.objs)
             && forall v :: Leads(g, [], r, v) == if v == w + [s] then Some(h.next) else Leads(h, [], r, v)
    ensures Tame(h, r, Down(h, w, m, s), r, [], r)
  {
    DownRead(h, w, m, s);
    hide Leads, Down, Read, Sound;
  }

  lemma DownSound(h: Heap, w: Route, m: nat, s: Step)
    requires Sound(h) && (w, m) in h.objs && s !in Read(h, w, m).links
    ensures var g := Down(h, w, m, s);
            Sound(g) && g.next == h.next + 1 && forall k :: k in h.objs ==> k in g.objs
  {
    hide Sound;
    var h1, o := Poke(h, w + [s], h.next, NewObj(s), 1), Read(h, w, m);
    PokeSound(h, w + [s], h.next, NewObj(s), 1);
    SoundBelow(h, w, m);
    forall t | t in o.links[s := h.next]
      ensures (w + [t], o.links[s := h.next][t]) in h1.objs
    {
    }
    PokeSound(h1, w, m, o.(links := o.links[s := h.next]), 0);
  }

  lemma SoundBelow(h: Heap, w: Route, m: nat)
    requires Sound(h) && (w, m) in h.objs
    ensures m < h.next && forall s :: s in Read(h, w, m).links ==> (w + [s], Read(h, w, m).links[s]) in h.objs
  {
    assert h.objs[(w, m)] == Read(h, w, m);
  }

  lemma PokeSound(h: Heap, w: Route, m: nat, o: Obj, grow: nat)
    requires Sound(h) && m < h.next + grow && forall s :: s in o.links ==> (w + [s], o.links[s]) in h.objs
    ensures Sound(Poke(h, w, m, o, grow)) && forall k :: k in h.objs || k == (w, m) ==> k in Poke(h, w, m, o, grow).objs
  {
  }

  lemma EnsureIs(h: Heap, r: nat, w: Route, s: Step)
    ensures var g := Ensure(h, r, w);
            var m := Leads(g, [], r, w);
            Ensure(h, r, w + [s]) == if m.None? then g else Down(g, w, m.value, s)
  {
    assert Init(w + [s]) == w;
  }

  lemma {:induction false} EnsureTame(h: Heap, r: nat, w: Route)
    requires Sound(h) && ([], r) in h.objs
    ensures var g := Ensure(h, r, w);
            Tame(h, r, g, r, [], r) && InPlace(h, r, g) && Leads(g, [], r, w).Some? && Sound(g) && ([], r) in g.objs
    decreases |w|
  {
    hide *;
    if w == [] {
      EnsureNothing(h, r);
      TameItself(h, r);
      InPlaceIs(h, r, h);
      TameParts(h, r, h, r, [], r);
    } else {
      InitLast(w);
      var g, f := Ensure(h, r, Init(w)), Ensure(h, r, w);
      EnsureTame(h, r, Init(w));
      EnsureIs(h, r, Init(w), Last(w));
      DownTame(g, r, Init(w), Leads(g, [], r, Init(w)).value, Last(w));
      TameParts(h, r, g, r, [], r);
      TameParts(g, r, f, r, [], r);
      TameMore(h, r, g, r, f, r, [], r);
      InPlaceMore(h, r, g, f);
    }
  }

  lemma EnsureNothing(h: Heap, r: nat)
    ensures Ensure(h, r, []) == h && Leads(h, [], r, []) == Some(r)
  {
  }

  lemma TameParts(h: Heap, r: nat, g: Heap, s: nat, b: Route, n: nat)
    requires Tame(h, r, g, s, b, n)
    ensures Sound(g) && ([], s) in g.objs && h.next <= g.next && (forall k :: k in h.objs ==> k in g.objs)
    ensures forall v :: Owned(h, r, b, n, v, Leads(g, [], s, v))
  {
  }

  lemma InPlaceMore(h: Heap, r: nat, g: Heap, f: Heap)
    requires InPlace(h, r, g) && InPlace(g, r, f)
    ensures InPlace(h, r, f)
  {
    hide Leads;
  }

  /** An empty object changes nothing that is seen. */
  lemma DownSeesSame(h: Heap, r: nat, w: Route, m: nat, s: Step)
    requires Sound(h) && ([], r) in h.objs && Leads(h, [], r, w) == Some(m) && !s.Entry?
    ensures forall q :: Sees(Down(h, w, m, s), [], r, q) == Sees(h, [], r, q)
  {
    hide *;
    var g := Down(h, w, m, s);
    if s in Read(h, w, m).links {
      DownNot(h, w, m, s);
      return;
    }
    LeadsStep(h, [], r, w, s);
    AtIs(Read(h, w, m).links, s);
    forall q
      ensures Sees(g, [], r, q) == Sees(h, [], r, q)
    {
      SeesIs(h, r, q);
      SeesIs(g, r, q);
      if q != [] {
        DownLeads(h, r, w, m, s, ToRoute(q));
        DownLeaf(h, r, w, m, s, ToRoute(Init(q)), Last(q).name);
        NoEntryPlace(q, w, s);
        AtIs(NewObj(s).leaves, Last(q).name);
        LeafNowhere(h, r, w + [s], Last(q).name);
      }
    }
  }

  lemma NoEntryPlace(q: Path, w: Route, s: Step)
    requires q != [] && !s.Entry?
    ensures Last(q).keys != map[] ==> ToRoute(q) != w + [s]
    ensures NewObj(s).leaves == map[]
  {
    assert Last(q).keys != map[] ==> Last(ToRoute(q)).Entry?;
    assert Last(w + [s]) == s;
  }

  /** A new entry shows itself and the leaves of its keys. */
  lemma DownSeesEntry(h: Heap, r: nat, p: Path, w: Route, m: nat, s: Step)
    requires Sound(h) && ([], r) in h.objs && Leads(h, [], r, w) == Some(m) && s !in Read(h, w, m).links
    requires p != [] && Last(p).keys != map[] && ToRoute(p) == w + [s]
    ensures forall q :: Sees(Down(h, w, m, s), [], r, q) == if q in NewEntry(p) then Some(NewEntry(p)[q]) else Sees(h, [], r, q)
  {
    hide *;
    var g := Down(h, w, m, s);
    EntryPlace(p, w, s);
    LeadsStep(h, [], r, w, s);
    AtIs(Read(h, w, m).links, s);
    forall q
      ensures Sees(g, [], r, q) == if q in NewEntry(p) then Some(NewEntry(p)[q]) else Sees(h, [], r, q)
    {
      SeesIs(h, r, q);
      SeesIs(g, r, q);
      if q != [] {
        DownLeads(h, r, w, m, s, ToRoute(q));
        DownLeaf(h, r, w, m, s, ToRoute(Init(q)), Last(q).name);
        SameRoute(p, q);
        SameRoute(p, Init(q));
        NewEntryIs(p, q);
        AtIs(NewObj(s).leaves, Last(q).name);
        LeafNowhere(h, r, ToRoute(p), Last(q).name);
      } else {
        NewEntryBelow(p);
      }
    }
  }

  lemma EntryPlace(p: Path, w: Route, s: Step)
    requires p != [] && Last(p).keys != map[] && ToRoute(p) == w + [s]
    ensures s == Entry(Last(p).keys) && NewObj(s).leaves == Last(p).keys
  {
    assert Last(ToRoute(p)) == s;
  }

  lemma SameRoute(p: Path, q: Path)
    ensures ToRoute(p) == ToRoute(q) <==> p == q
  {
    UnrouteRoute(p);
    UnrouteRoute(q);
  }

  lemma NewEntryIs(p: Path, q: Path)
    requires p != [] && q != []
    ensures q in NewEntry(p) <==> q == p || (Init(q) == p && Last(q).keys == map[] && Last(q).name in Last(p).keys)
    ensures q in NewEntry(p) ==> NewEntry(p)[q] == if q == p then ListEntry else Leaf(Last(p).keys[Last(q).name])
  {
    InitLast(q);
    if Init(q) == p && Last(q).keys == map[] && Last(q).name in Last(p).keys {
      assert q == p + [Elem(Last(q).name, map[])];
    }
    if q in KeyPaths(p) {
      var k :| k in Last(p).keys && q == p + [Elem(k, map[])];
      assert Init(q) == p;
    }
  }

  ghost predicate Shows(h: Heap, r: nat, t: Tree) {
    forall q :: Sees(h, [], r, q) == At(t, q)
  }

  /** GetOrCreateNode makes of the objects what Create makes of the tree. */
  lemma {:induction false} EnsureSees(h: Heap, r: nat, p: Path, t: Tree)
    requires Sound(h) && ([], r) in h.objs && Shows(h, r, t)
    ensures Shows(Ensure(h, r, ToRoute(p)), r, Create(t, p))
    decreases |p|
  {
    hide Leads, Sees, Sound, Down;
    if p == [] {
      EnsureNothing(h, r);
    } else {
      var w, g, e := ToRoute(Init(p)), Ensure(h, r, ToRoute(Init(p))), Last(p);
      EnsureTame(h, r, w);
      EnsureSees(h, r, Init(p), t);
      if e.keys == map[] {
        EnsureIs(h, r, w, Field(e.name));
        DownSeesSame(g, r, w, Leads(g, [], r, w).value, Field(e.name));
      } else {
        EnsureEntrySees(h, r, p, Create(t, Init(p)));
      }
    }
  }

  lemma EnsureEntrySees(h: Heap, r: nat, p: Path, u: Tree)
    requires Sound(h) && ([], r) in h.objs && p != [] && Last(p).keys != map[]
    requires Shows(Ensure(h, r, ToRoute(Init(p))), r, u)
    ensures Shows(Ensure(h, r, ToRoute(p)), r, if p in u then u else u + NewEntry(p))
  {
    hide *;
    var w, e := ToRoute(Init(p)), Last(p);
    var w1 := w + [Table(e.name)];
    var g, g1, f := Ensure(h, r, w), Ensure(h, r, w1), Ensure(h, r, ToRoute(p));
    EntryRoute(p);
    EnsureTame(h, r, w);
    EnsureTame(h, r, w1);
    EnsureIs(h, r, w, Table(e.name));
    EnsureIs(h, r, w1, Entry(e.keys));
    DownSeesSame(g, r, w, Leads(g, [], r, w).value, Table(e.name));
    var m := Leads(g1, [], r, w1).value;
    ShowsAt(g, r, u);
    ShowsIf(g1, r, u);
    ShowsAt(g1, r, u);
    SeesEntry(g1, r, p, w1, m);
    AtIs(u, p);
    if Entry(e.keys) in Read(g1, w1, m).links {
      DownNot(g1, w1, m, Entry(e.keys));
    } else {
      DownSeesEntry(g1, r, p, w1, m, Entry(e.keys));
      Overlay(g1, f, r, u, NewEntry(p));
    }
  }

  lemma EntryRoute(p: Path)
    requires p != [] && Last(p).keys != map[]
    ensures ToRoute(p) == ToRoute(Init(p)) + [Table(Last(p).name)] + [Entry(Last(p).keys)]
  {
  }

  lemma ShowsAt(h: Heap, r: nat, t: Tree)
    requires Shows(h, r, t)
    ensures forall q :: Sees(h, [], r, q) == At(t, q)
  {
  }

  lemma ShowsIf(h: Heap, r: nat, t: Tree)
    requires forall q :: Sees(h, [], r, q) == At(t, q)
    ensures Shows(h, r, t)
  {
  }

  lemma ShownIs(h: Heap, r: nat, t: Tree)
    requires Sound(h) && ([], r) in h.objs && Shows(h, r, t)
    ensures TreeFrom(h, [], r) == t
  {
    hide *;
    TreeAt(h, [], r);
    ShowsAt(h, r, t);
    SameMap(TreeFrom(h, [], r), t);
  }

  lemma SeesEntry(h: Heap, r: nat, p: Path, w: Route, m: nat)
    requires p != [] && Last(p).keys != map[] && ToRoute(p) == w + [Entry(Last(p).keys)] && Leads(h, [], r, w) == Some(m)
    ensures Sees(h, [], r, p).Some? <==> Entry(Last(p).keys) in Read(h, w, m).links
  {
    LeadsStep(h, [], r, w, Entry(Last(p).keys));
    hide Leads;
  }

  lemma Overlay(h: Heap, g: Heap, r: nat, t: Tree, more: Tree)
    requires Shows(h, r, t)
    requires forall q :: Sees(g, [], r, q) == if q in more then Some(more[q]) else Sees(h, [], r, q)
    ensures Shows(g, r, t + more)
  {
    hide Sees;
    assert forall q :: Sees(h, [], r, q) == At(t, q);
  }

  // ---------------------------------------------------------------- writing back

  /** ydb.ValChildSet: the leaf p is set in its parent; a field holds a leaf or a struct. */
  function WriteLeaf(h: Heap, r: nat, p: Path, v: string): Heap
    requires p != []
  {
    var w, name := ToRoute(Init(p)), Last(p).name;
    var g := Ensure(h, r, w);
    var m := Leads(g, [], r, w);
    if m.None? then g else Poke(g, w, m.value, SetLeaf(Read(g, w, m.value), name, v), 0)
  }

  function SetLeaf(o: Obj, name: string, v: string): Obj {
    Obj(o.leaves[name := v], o.links - {Field(name)})
  }

  lemma ChangedLeaf(h: Heap, r: nat, w: Route, m: nat, o: Obj, v: Route, name: string)
    requires Leads(h, [], r, w) == Some(m) && FewerLinks(o, Read(h, w, m))
    ensures LeafAt(Poke(h, w, m, o, 0), [], r, v, name)
            == if v == w then At(o.leaves, name)
               else if w < v && v[|w|] !in o.links then None
               else LeafAt(h, [], r, v, name)
  {
    hide Leads, Poke, Read;
    FewerLeads(h, [], r, w, m, o, v);
    PokeRead(h, w, m, o, 0);
  }

  lemma WriteLeafSees(h: Heap, r: nat, p: Path, v: string, t: Tree)
    requires Sound(h) && ([], r) in h.objs && Shows(h, r, t) && p != [] && Last(p).keys == map[]
    ensures Shows(WriteLeaf(h, r, p, v), r, WriteValue(t, p, map[p := Leaf(v)]))
    ensures Tame(h, r, WriteLeaf(h, r, p, v), r, [], r)
  {
    var w, name := ToRoute(Init(p)), Last(p).name;
    var g := Ensure(h, r, w);
    EnsureTame(h, r, w);
    EnsureSees(h, r, Init(p), t);
    var m := Leads(g, [], r, w).value;
    hide Leads, Sees, Sound, Ensure, Tame, InPlace, Shows;
    var o := SetLeaf(Read(g, w, m), name, v);
    FewerTame(g, r, w, m, o);
    TameParts(h, r, g, r, [], r);
    TameMore(h, r, g, r, Poke(g, w, m, o, 0), r, [], r);
    SetLeafSees(g, r, p, v, m, Create(t, Init(p)));
  }

  lemma SetLeafSees(g: Heap, r: nat, p: Path, v: string, m: nat, u: Tree)
    requires p != [] && Last(p).keys == map[] && Leads(g, [], r, ToRoute(Init(p))) == Some(m) && Shows(g, r, u)
    ensures var w := ToRoute(Init(p));
            Shows(Poke(g, w, m, SetLeaf(Read(g, w, m), Last(p).name, v), 0), r, Put(u, p, map[p := Leaf(v)]))
  {
    var w, name := ToRoute(Init(p)), Last(p).name;
    var o := SetLeaf(Read(g, w, m), name, v);
    var f := Poke(g, w, m, o, 0);
    forall q
      ensures Sees(f, [], r, q) == At(Put(u, p, map[p := Leaf(v)]), q)
    {
      SetLeafSeesAt(g, r, p, v, m, q);
      PutAt(u, p, map[p := Leaf(v)], q);
      assert Sees(g, [], r, q) == At(u, q);
      hide Sees, Poke, Put, ToRoute, Leads;
    }
  }

  lemma SetLeafSeesAt(g: Heap, r: nat, p: Path, v: string, m: nat, q: Path)
    requires p != [] && Last(p).keys == map[] && Leads(g, [], r, ToRoute(Init(p))) == Some(m)
    ensures var w := ToRoute(Init(p));
            Sees(Poke(g, w, m, SetLeaf(Read(g, w, m), Last(p).name, v), 0), [], r, q)
            == if q == p then Some(Leaf(v)) else if p <= q then None else Sees(g, [], r, q)
  {
    hide *;
    var w, name := ToRoute(Init(p)), Last(p).name;
    var o := SetLeaf(Read(g, w, m), name, v);
    SetLeafIs(Read(g, w, m), name, v);
    FieldPlace(p);
    SeesIs(g, r, q);
    SeesIs(Poke(g, w, m, o, 0), r, q);
    RouteBelow(p, q);
    SetLeads(g, r, p, m, o, ToRoute(q));
    if q != [] {
      BelowInit(p, q);
      RouteBelow(p, Init(q));
      ChangedLeaf(g, r, w, m, o, ToRoute(Init(q)), Last(q).name);
      Ahead(w, Field(name), ToRoute(Init(q)));
      SetLeads(g, r, p, m, o, ToRoute(Init(q)));
      SameRoute(Init(p), Init(q));
      LeafOf(g, r, w, m, Last(q).name);
      FewerLeads(g, [], r, w, m, o, ToRoute(Init(q)));
      LeafNowhere(g, r, ToRoute(Init(q)), Last(q).name);
      assert Last(p) == Elem(name, map[]) && Last(q) == Elem(Last(q).name, Last(q).keys);
    }
  }

  lemma SetLeafIs(o: Obj, name: string, v: string)
    ensures FewerLinks(SetLeaf(o, name, v), o) && SetLeaf(o, name, v).links.Keys == o.links.Keys - {Field(name)}
    ensures forall x :: At(SetLeaf(o, name, v).leaves, x) == if x == name then Some(v) else At(o.leaves, x)
  {
  }

  lemma FieldPlace(p: Path)
    requires p != [] && Last(p).keys == map[]
    ensures ToRoute(p) == ToRoute(Init(p)) + [Field(Last(p).name)]
  {
  }

  lemma SeesIs(h: Heap, r: nat, q: Path)
    ensures q == [] ==> Sees(h, [], r, q) == None
    ensures q != [] && Last(q).keys != map[] ==> Sees(h, [], r, q) == if Leads(h, [], r, ToRoute(q)).Some? then Some(ListEntry) else None
    ensures q != [] && Last(q).keys == map[]
            ==> Sees(h, [], r, q) == (match LeafAt(h, [], r, ToRoute(Init(q)), Last(q).name) case None => None case Some(v) => Some(Leaf(v)))
  {
  }

  /** One path is below another if it is the other, or what is above its last element is. */
  lemma BelowInit(p: Path, q: Path)
    requires q != []
    ensures p <= q <==> p == q || p <= Init(q)
    ensures p != [] && Init(p) == Init(q) && Last(p) == Last(q) ==> p == q
  {
    InitLast(q);
    if p != [] {
      InitLast(p);
    }
  }

  lemma LeafOf(h: Heap, r: nat, w: Route, m: nat, name: string)
    requires Leads(h, [], r, w) == Some(m)
    ensures LeafAt(h, [], r, w, name) == At(Read(h, w, m).leaves, name)
  {
  }

  lemma LeafNowhere(h: Heap, r: nat, w: Route, name: string)
    ensures Leads(h, [], r, w) == None ==> LeafAt(h, [], r, w, name) == None
  {
  }

  lemma SetLeads(g: Heap, r: nat, p: Path, m: nat, o: Obj, v: Route)
    requires p != [] && Last(p).keys == map[]
    requires var w := ToRoute(Init(p));
             Leads(g, [], r, w) == Some(m) && FewerLinks(o, Read(g, w, m))
             && o.links.Keys == Read(g, w, m).links.Keys - {Field(Last(p).name)}
    ensures Leads(Poke(g, ToRoute(Init(p)), m, o, 0), [], r, v) == if ToRoute(p) <= v then None else Leads(g, [], r, v)
  {
    var w, s := ToRoute(Init(p)), Field(Last(p).name);
    assert ToRoute(p) == w + [s];
    hide Leads, Poke, Read, ToRoute;
    FewerLeads(g, [], r, w, m, o, v);
    Ahead(w, s, v);
    if w < v && v[|w|] != s && v[|w|] !in Read(g, w, m).links {
      NoLink(g, r, w, m, v);
    }
  }

  /** WriteValue of a struct: the struct at p, made if it is missing, gets what (w, n) holds; a struct is no leaf. */
  function WriteStruct(h: Heap, r: nat, p: Path, n: nat): Heap {
    var w := ToRoute(p);
    if Leads(h, [], r, w) == Some(n) then h
    else
      var g := NoLeaf(Ensure(h, r, w), r, p);
      var m := Leads(g, [], r, w);
      if m.None? then g else Poke(g, w, m.value, Read(g, w, n), 0)
  }

  function NoLeaf(h: Heap, r: nat, p: Path): Heap {
    if p == [] || Last(p).keys != map[] then h
    else
      var w := ToRoute(Init(p));
      var m := Leads(h, [], r, w);
      if m.None? then h
      else Poke(h, w, m.value, Obj(Read(h, w, m.value).leaves - {Last(p).name}, Read(h, w, m.value).links), 0)
  }

  lemma {:induction false} SameLinks(h: Heap, w: Route, m: nat, o: Obj, b: Route, n: nat, v: Route)
    requires o.links == Read(h, w, m).links
    ensures Leads(Poke(h, w, m, o, 0), b, n, v) == Leads(h, b, n, v)
    decreases |v|
  {
    if |v| > |b| {
      SameLinks(h, w, m, o, b, n, Init(v));
    }
  }

  /** Nothing at or below w that was there has changed. */
  ghost predicate SameFrom(h: Heap, g: Heap, w: Route) {
    forall v, k: nat :: w <= v && k < h.next ==> Read(g, v, k) == Read(h, v, k)
  }

  lemma {:induction false} SameFromLeads(h: Heap, g: Heap, w: Route, n: nat, v: Route)
    requires Sound(h) && (w, n) in h.objs && SameFrom(h, g, w)
    ensures Leads(g, w, n, v) == Leads(h, w, n, v)
    ensures Leads(h, w, n, v).Some? ==> Read(g, v, Leads(h, w, n, v).value) == Read(h, v, Leads(h, w, n, v).value)
    decreases |v|
  {
    if |v| > |w| {
      SameFromLeads(h, g, w, n, Init(v));
    }
    LeadsInside(h, w, n, v);
    LeadsBelow(h, w, n, v);
  }

  lemma SameFromSees(h: Heap, g: Heap, w: Route, n: nat)
    requires Sound(h) && (w, n) in h.objs && SameFrom(h, g, w)
    ensures forall v :: Leads(g, w, n, v) == Leads(h, w, n, v)
    ensures forall q :: Sees(g, w, n, q) == Sees(h, w, n, q)
  {
    forall v
      ensures Leads(g, w, n, v) == Leads(h, w, n, v)
    {
      SameFromLeads(h, g, w, n, v);
    }
    forall q
      ensures Sees(g, w, n, q) == Sees(h, w, n, q)
    {
      if q != [] {
        SameFromLeads(h, g, w, n, ToRoute(Init(q)));
      }
    }
  }

  /** On the way to w only what is above w is changed. */
  lemma {:induction false} EnsureSameFrom(h: Heap, r: nat, w: Route, v: Route)
    requires Sound(h) && ([], r) in h.objs && !(v < w)
    ensures SameFrom(h, Ensure(h, r, w), v)
    decreases |w|
  {
    hide *;
    if w == [] {
      EnsureNothing(h, r);
      SameFromItself(h, v);
    } else {
      var u, g := Init(w), Ensure(h, r, Init(w));
      InitLast(w);
      EnsureSameFrom(h, r, u, v);
      EnsureTame(h, r, u);
      TameParts(h, r, g, r, [], r);
      EnsureIs(h, r, u, Last(w));
      DownSameFrom(g, u, Leads(g, [], r, u).value, Last(w), v);
      SameFromMore(h, g, Ensure(h, r, w), v);
    }
  }

  lemma SameFromItself(h: Heap, v: Route)
    ensures SameFrom(h, h, v)
  {
  }

  lemma DownSameFrom(h: Heap, w: Route, m: nat, s: Step, v: Route)
    requires !(v <= w)
    ensures SameFrom(h, Down(h, w, m, s), v)
  {
    hide Read;
    if s in Read(h, w, m).links {
      DownNot(h, w, m, s);
    } else {
      DownRead(h, w, m, s);
    }
    hide Down;
  }

  lemma NoLeafSees(h: Heap, r: nat, p: Path, t: Tree)
    requires Sound(h) && ([], r) in h.objs && Shows(h, r, t)
    ensures var g := NoLeaf(h, r, p);
            && (forall v :: Leads(g, [], r, v) == Leads(h, [], r, v)) && SameFrom(h, g, ToRoute(p)) && Tame(h, r, g, r, [], r)
            && (p != [] && Last(p).keys == map[] ==> Sees(g, [], r, p) == None)
            && forall q :: q != p ==> Sees(g, [], r, q) == At(t, q)
  {
    var g, w := NoLeaf(h, r, p), if p == [] then [] else ToRoute(Init(p));
    hide Leads, Sound, Tame, Sees;
    TameItself(h, r);
    ShowsAt(h, r, t);
    if p != [] && Last(p).keys == map[] {
      FieldPlace(p);
      var m := Leads(h, [], r, w);
      SeesIs(h, r, p);
      LeafNowhere(h, r, w, Last(p).name);
      if m.Some? {
        var o := Obj(Read(h, w, m.value).leaves - {Last(p).name}, Read(h, w, m.value).links);
        FewerTame(h, r, w, m.value, o);
        PokeRead(h, w, m.value, o, 0);
        forall v
          ensures Leads(g, [], r, v) == Leads(h, [], r, v)
        {
          SameLinks(h, w, m.value, o, [], r, v);
        }
        NoLeafLeaves(h, r, p, m.value, o);
      }
    }
  }

  lemma NoLeafLeaves(h: Heap, r: nat, p: Path, m: nat, o: Obj)
    requires p != [] && Last(p).keys == map[] && Leads(h, [], r, ToRoute(Init(p))) == Some(m)
    requires o == Obj(Read(h, ToRoute(Init(p)), m).leaves - {Last(p).name}, Read(h, ToRoute(Init(p)), m).links)
    ensures forall q :: Sees(Poke(h, ToRoute(Init(p)), m, o, 0), [], r, q) == if q == p then None else Sees(h, [], r, q)
  {
    hide *;
    var w := ToRoute(Init(p));
    var g := Poke(h, w, m, o, 0);
    forall q
      ensures Sees(g, [], r, q) == if q == p then None else Sees(h, [], r, q)
    {
      SeesIs(g, r, q);
      SeesIs(h, r, q);
      SameLinks(h, w, m, o, [], r, ToRoute(q));
      if q != [] {
        SameRoute(Init(p), Init(q));
        BelowInit(p, q);
        LeafChanged(h, r, w, m, o, ToRoute(Init(q)), Last(q).name);
        AtIs(o.leaves, Last(q).name);
        AtIs(Read(h, w, m).leaves, Last(q).name);
        LeafOf(h, r, w, m, Last(q).name);
        assert Last(p) == Elem(Last(p).name, map[]) && Last(q) == Elem(Last(q).name, Last(q).keys);
      }
    }
  }

  lemma LeafChanged(h: Heap, r: nat, w: Route, m: nat, o: Obj, v: Route, name: string)
    requires Leads(h, [], r, w) == Some(m) && o.links == Read(h, w, m).links
    ensures LeafAt(Poke(h, w, m, o, 0), [], r, v, name) == if v == w then At(o.leaves, name) else LeafAt(h, [], r, v, name)
  {
    SameLinks(h, w, m, o, [], r, v);
    PokeRead(h, w, m, o, 0);
    hide Leads, Poke, Read;
  }

  lemma AssignLeads(h: Heap, r: nat, w: Route, m: nat, n: nat, v: Route)
    requires Leads(h, [], r, w) == Some(m)
    ensures Leads(Poke(h, w, m, Read(h, w, n), 0), [], r, v) == if w < v then Leads(h, w, n, v) else Leads(h, [], r, v)
  {
    hide *;
    var o := Read(h, w, n);
    if w < v {
      PokeBelow(h, [], r, w, m, o, 0, v);
      LinkBelow(h, w, n, v);
    } else {
      PokeAbove(h, [], r, w, m, o, 0, v);
    }
  }

  lemma LinkBelow(h: Heap, w: Route, n: nat, v: Route)
    requires w < v
    ensures Leads(h, w, n, v) == var k := At(Read(h, w, n).links, v[|w|]); if k.None? then None else Leads(h, w + [v[|w|]], k.value, v)
  {
    var s := v[|w|];
    assert w + [s] <= v;
    LeadsStep(h, w, n, w, s);
    LeadsSplit(h, w, n, w + [s], v);
  }

  lemma AssignLeaf(h: Heap, r: nat, w: Route, m: nat, n: nat, v: Route, name: string)
    requires Leads(h, [], r, w) == Some(m)
    ensures LeafAt(Poke(h, w, m, Read(h, w, n), 0), [], r, v, name)
            == if w <= v then LeafAt(h, w, n, v, name) else LeafAt(h, [], r, v, name)
  {
    AssignLeads(h, r, w, m, n, v);
    PokeRead(h, w, m, Read(h, w, n), 0);
    hide Poke, Read;
    if v == w {
      assert Leads(h, w, n, w) == Some(n);
    }
    hide Leads;
  }

  /** What the object at p gets is seen below p. */
  lemma AssignSees(h: Heap, r: nat, p: Path, m: nat, n: nat)
    requires Leads(h, [], r, ToRoute(p)) == Some(m)
    requires p != [] && Last(p).keys == map[] ==> Sees(h, [], r, p) == None
    ensures forall q :: Sees(Poke(h, ToRoute(p), m, Read(h, ToRoute(p), n), 0), [], r, q)
                        == if p <= q then Sees(h, ToRoute(p), n, q) else Sees(h, [], r, q)
  {
    var w := ToRoute(p);
    var a := Poke(h, w, m, Read(h, w, n), 0);
    forall q
      ensures Sees(a, [], r, q) == if p <= q then Sees(h, w, n, q) else Sees(h, [], r, q)
    {
      RouteBelow(p, q);
      SameRoute(p, q);
      AssignLeads(h, r, w, m, n, ToRoute(q));
      LeadsHere(h, w, n, ToRoute(q));
      if q != [] {
        BelowInit(p, q);
        RouteBelow(p, Init(q));
        AssignLeaf(h, r, w, m, n, ToRoute(Init(q)), Last(q).name);
        NoLeafAbove(h, w, n, ToRoute(Init(q)), Last(q).name);
      }
      hide Leads, Poke, Read, ToRoute, LeafAt;
    }
  }

  lemma LeadsHere(h: Heap, w: Route, n: nat, v: Route)
    ensures v == w ==> Leads(h, w, n, v) == Some(n)
  {
  }

  lemma NoLeafAbove(h: Heap, w: Route, n: nat, v: Route, name: string)
    ensures !(w <= v) ==> LeafAt(h, w, n, v, name) == None
  {
    LeadsBelow(h, w, n, v);
  }

  lemma AssignTame(h: Heap, r: nat, w: Route, m: nat, n: nat)
    requires Sound(h) && ([], r) in h.objs && Leads(h, [], r, w) == Some(m) && (w, n) in h.objs
    ensures Tame(h, r, Poke(h, w, m, Read(h, w, n), 0), r, w, n)
  {
    var a := Poke(h, w, m, Read(h, w, n), 0);
    LeadsInside(h, [], r, w);
    SoundBelow(h, w, n);
    PokeSound(h, w, m, Read(h, w, n), 0);
    PokeRead(h, w, m, Read(h, w, n), 0);
    hide Leads, Poke, Read, Sound;
    forall v
      ensures Owned(h, r, w, n, v, Leads(a, [], r, v))
    {
      AssignLeads(h, r, w, m, n, v);
    }
    PokeNext(h, w, m, Read(h, w, n));
  }

  lemma PokeNext(h: Heap, w: Route, m: nat, o: Obj)
    ensures Poke(h, w, m, o, 0).next == h.next
  {
  }

  /** WriteValue writes what the struct holds now, whoever else has it, unless the struct is still in its place. */
  lemma WriteStructShows(h: Heap, r: nat, p: Path, n: nat, t: Tree)
    requires Sound(h) && ([], r) in h.objs && Shows(h, r, t) && (ToRoute(p), n) in h.objs
    ensures var w, g := ToRoute(p), WriteStruct(h, r, p, n);
            && Shows(g, r, if Leads(h, [], r, w) == Some(n) then t else WriteValue(t, p, TreeFrom(h, w, n)))
            && Tame(h, r, g, r, w, n)
  {
    hide *;
    var w := ToRoute(p);
    WriteStructIs(h, r, p, n);
    if Leads(h, [], r, w) == Some(n) {
      TameItself(h, r);
      TameAnyway(h, r, h, w, n);
    } else {
      var e := Ensure(h, r, w);
      var g := NoLeaf(e, r, p);
      EnsureTame(h, r, w);
      EnsureSees(h, r, p, t);
      EnsureSameFrom(h, r, w, w);
      NoLeafSees(e, r, p, Create(t, p));
      var m := Leads(g, [], r, w).value;
      TameParts(h, r, e, r, [], r);
      TameParts(e, r, g, r, [], r);
      TameMore(h, r, e, r, g, r, [], r);
      SameFromMore(h, e, g, w);
      SameFromSees(h, g, w, n);
      AssignTame(g, r, w, m, n);
      TameOther(h, r, g, w, n);
      TameMore(h, r, g, r, Poke(g, w, m, Read(g, w, n), 0), r, w, n);
      AssignSees(g, r, p, m, n);
      TreeAt(h, w, n);
      PutBack(t, p, TreeFrom(h, w, n), g, Poke(g, w, m, Read(g, w, n), 0), r, w, n);
    }
  }

  lemma WriteStructIs(h: Heap, r: nat, p: Path, n: nat)
    ensures var w := ToRoute(p);
            var g := NoLeaf(Ensure(h, r, w), r, p);
            var m := Leads(g, [], r, w);
            WriteStruct(h, r, p, n) == if Leads(h, [], r, w) == Some(n) then h
                                       else if m.None? then g
                                       else Poke(g, w, m.value, Read(g, w, n), 0)
  {
  }

  lemma TameAnyway(h: Heap, r: nat, g: Heap, b: Route, n: nat)
    requires Tame(h, r, g, r, [], r)
    ensures Tame(h, r, g, r, b, n)
  {
    hide Leads, Read, Sound;
    forall v
      ensures Owned(h, r, b, n, v, Leads(g, [], r, v))
    {
      assert Owned(h, r, [], r, v, Leads(g, [], r, v));
    }
  }

  lemma SameFromMore(h: Heap, e: Heap, g: Heap, w: Route)
    requires SameFrom(h, e, w) && SameFrom(e, g, w) && h.next <= e.next
    ensures SameFrom(h, g, w)
  {
    hide Read;
  }

  lemma TameOther(h: Heap, r: nat, g: Heap, b: Route, n: nat)
    requires forall v :: Leads(g, b, n, v) == Leads(h, b, n, v)
    ensures forall v :: Owned(h, r, b, n, v, Leads(g, b, n, v))
  {
  }

  lemma PutBack(t: Tree, p: Path, cells: Tree, g: Heap, a: Heap, r: nat, w: Route, n: nat)
    requires forall q :: q != p ==> Sees(g, [], r, q) == At(Create(t, p), q)
    requires forall q :: Sees(a, [], r, q) == if p <= q then Sees(g, w, n, q) else Sees(g, [], r, q)
    requires forall q :: Sees(g, w, n, q) == At(cells, q)
    ensures Shows(a, r, WriteValue(t, p, cells))
  {
    forall q
      ensures Sees(a, [], r, q) == At(WriteValue(t, p, cells), q)
    {
      PutAt(Create(t, p), p, cells, q);
      hide Sees, Create;
    }
  }

  // ---------------------------------------------------------------- what stays in its place

  lemma RemoveLeads(h: Heap, r: nat, p: Path, v: Route)
    requires p != []
    ensures Leads(Remove(h, r, p), [], r, v) == if ToRoute(p) <= v then None else Leads(h, [], r, v)
  {
    InitLast(ToRoute(p));
    CutLeads(h, r, Init(ToRoute(p)), Last(ToRoute(p)), v);
  }

  lemma WriteLeafLeads(h: Heap, r: nat, p: Path, x: string, v: Route)
    requires Sound(h) && ([], r) in h.objs && p != [] && Last(p).keys == map[]
    requires Leads(h, [], r, v).Some? && !(ToRoute(p) <= v)
    ensures Leads(WriteLeaf(h, r, p, x), [], r, v) == Leads(h, [], r, v)
  {
    var w, name := ToRoute(Init(p)), Last(p).name;
    var g := Ensure(h, r, w);
    EnsureTame(h, r, w);
    var m := Leads(g, [], r, w).value;
    var o := SetLeaf(Read(g, w, m), name, x);
    SetLeafIs(Read(g, w, m), name, x);
    hide Leads, Sound, Tame, Ensure, ToRoute, Read, SetLeaf;
    SetLeads(g, r, p, m, o, v);
  }

  lemma WriteStructLeads(h: Heap, r: nat, p: Path, n: nat, v: Route)
    requires Sound(h) && ([], r) in h.objs && Leads(h, [], r, v).Some? && !(ToRoute(p) < v)
    ensures Leads(WriteStruct(h, r, p, n), [], r, v) == Leads(h, [], r, v)
  {
    hide *;
    var w := ToRoute(p);
    WriteStructIs(h, r, p, n);
    if Leads(h, [], r, w) != Some(n) {
      var e := Ensure(h, r, w);
      var g := NoLeaf(e, r, p);
      EnsureTame(h, r, w);
      InPlaceAt(h, r, e, v);
      NoLeafLeads(e, r, p, v);
      NoLeafLeads(e, r, p, w);
      AssignLeads(g, r, w, Leads(g, [], r, w).value, n, v);
    }
  }

  lemma InPlaceAt(h: Heap, r: nat, g: Heap, v: Route)
    requires InPlace(h, r, g) && Leads(h, [], r, v).Some?
    ensures Leads(g, [], r, v) == Leads(h, [], r, v)
  {
  }

  lemma NoLeafLeads(h: Heap, r: nat, p: Path, v: Route)
    ensures Leads(NoLeaf(h, r, p), [], r, v) == Leads(h, [], r, v)
  {
    hide Leads;
    if p != [] && Last(p).keys == map[] {
      var w := ToRoute(Init(p));
      var m := Leads(h, [], r, w);
      if m.Some? {
        SameLinks(h, w, m.value, Obj(Read(h, w, m.value).leaves - {Last(p).name}, Read(h, w, m.value).links), [], r, v);
      }
    }
  }

  lemma PokeSameFrom(h: Heap, w: Route, m: nat, o: Obj, v: Route)
    requires !(v <= w)
    ensures SameFrom(h, Poke(h, w, m, o, 0), v)
  {
    PokeRead(h, w, m, o, 0);
    hide Read, Poke;
  }

  /** What is not above p is left alone when p is deleted. */
  lemma RemoveSameFrom(h: Heap, r: nat, p: Path, v: Route)
    requires p != [] && (!(v <= ToRoute(p)) || v == ToRoute(p))
    ensures SameFrom(h, Remove(h, r, p), v)
  {
    hide *;
    RouteEnds(p);
    var w, s := Init(ToRoute(p)), Last(ToRoute(p));
    InitLast(ToRoute(p));
    CutIs(h, r, w, s);
    RemoveIs(h, r, p);
    var m := Leads(h, [], r, w);
    if m.Some? {
      PokeSameFrom(h, w, m.value, Without(Read(h, w, m.value), s), v);
    } else {
      SameFromItself(h, v);
    }
  }

  lemma RouteEnds(p: Path)
    ensures p != [] ==> ToRoute(p) != []
  {
  }

  lemma RemoveIs(h: Heap, r: nat, p: Path)
    requires p != []
    ensures ToRoute(p) != [] && Remove(h, r, p) == Cut(h, r, Init(ToRoute(p)), Last(ToRoute(p)))
  {
  }

  lemma WriteLeafSameFrom(h: Heap, r: nat, p: Path, x: string, v: Route)
    requires Sound(h) && ([], r) in h.objs && p != [] && !(v <= ToRoute(p))
    ensures SameFrom(h, WriteLeaf(h, r, p, x), v)
  {
    hide *;
    var w, name := ToRoute(Init(p)), Last(p).name;
    var g := Ensure(h, r, w);
    ShorterRoute(p, v);
    EnsureSameFrom(h, r, w, v);
    EnsureTame(h, r, w);
    TameParts(h, r, g, r, [], r);
    WriteLeafIs(h, r, p, x);
    var m := Leads(g, [], r, w).value;
    PokeSameFrom(g, w, m, SetLeaf(Read(g, w, m), name, x), v);
    SameFromMore(h, g, Poke(g, w, m, SetLeaf(Read(g, w, m), name, x), 0), v);
  }

  lemma ShorterRoute(p: Path, v: Route)
    requires p != []
    ensures v <= ToRoute(Init(p)) ==> v <= ToRoute(p)
  {
  }

  lemma WriteLeafIs(h: Heap, r: nat, p: Path, x: string)
    requires p != []
    ensures var w, name := ToRoute(Init(p)), Last(p).name;
            var g := Ensure(h, r, w);
            var m := Leads(g, [], r, w);
            WriteLeaf(h, r, p, x) == if m.None? then g else Poke(g, w, m.value, SetLeaf(Read(g, w, m.value), name, x), 0)
  {
  }

  lemma WriteStructSameFrom(h: Heap, r: nat, p: Path, n: nat, v: Route)
    requires Sound(h) && ([], r) in h.objs && !(v <= ToRoute(p))
    ensures SameFrom(h, WriteStruct(h, r, p, n), v)
  {
    hide *;
    var w := ToRoute(p);
    WriteStructIs(h, r, p, n);
    if Leads(h, [], r, w) == Some(n) {
      SameFromItself(h, v);
    } else {
      var e := Ensure(h, r, w);
      var g := NoLeaf(e, r, p);
      EnsureSameFrom(h, r, w, v);
      EnsureTame(h, r, w);
      TameParts(h, r, e, r, [], r);
      NoLeafSameFrom(e, r, p, v);
      NoLeafNext(e, r, p);
      SameFromMore(h, e, g, v);
      NoLeafLeads(e, r, p, w);
      var m := Leads(g, [], r, w).value;
      PokeSameFrom(g, w, m, Read(g, w, n), v);
      SameFromMore(h, g, Poke(g, w, m, Read(g, w, n), 0), v);
    }
  }

  lemma NoLeafSameFrom(h: Heap, r: nat, p: Path, v: Route)
    requires !(v <= ToRoute(p))
    ensures SameFrom(h, NoLeaf(h, r, p), v)
  {
    if p != [] && Last(p).keys == map[] {
      var w := ToRoute(Init(p));
      ShorterRoute(p, v);
      var m := Leads(h, [], r, w);
      if m.Some? {
        PokeSameFrom(h, w, m.value, Obj(Read(h, w, m.value).leaves - {Last(p).name}, Read(h, w, m.value).links), v);
      }
    }
    hide Leads, Read;
  }

  lemma NoLeafNext(h: Heap, r: nat, p: Path)
    ensures NoLeaf(h, r, p).next == h.next
  {
    hide Leads;
  }

  /** Nothing is left behind a field that is made a leaf. */
  lemma WriteLeafCuts(h: Heap, r: nat, p: Path, x: string, v: Route)
    requires Sound(h) && ([], r) in h.objs && p != [] && Last(p).keys == map[] && ToRoute(p) <= v
    ensures Leads(WriteLeaf(h, r, p, x), [], r, v) == None
  {
    hide *;
    var w, name := ToRoute(Init(p)), Last(p).name;
    var g := Ensure(h, r, w);
    EnsureTame(h, r, w);
    WriteLeafIs(h, r, p, x);
    var m := Leads(g, [], r, w).value;
    SetLeafIs(Read(g, w, m), name, x);
    SetLeads(g, r, p, m, SetLeaf(Read(g, w, m), name, x), v);
  }

  /** Behind a struct that is written back there is what it leads to. */
  lemma WriteStructBehind(h: Heap, r: nat, p: Path, n: nat, v: Route)
    requires Sound(h) && ([], r) in h.objs && (ToRoute(p), n) in h.objs && ToRoute(p) < v
    requires Leads(h, [], r, ToRoute(p)) != Some(n)
    ensures Leads(WriteStruct(h, r, p, n), [], r, v) == Leads(h, ToRoute(p), n, v)
  {
    hide *;
    var w := ToRoute(p);
    var e := Ensure(h, r, w);
    var g := NoLeaf(e, r, p);
    WriteStructIs(h, r, p, n);
    EnsureSameFrom(h, r, w, w);
    EnsureTame(h, r, w);
    TameParts(h, r, e, r, [], r);
    NoLeafLeads(e, r, p, w);
    NoLeafSameFromAt(e, r, p);
    SameFromMore(h, e, g, w);
    SameFromLeads(h, g, w, n, v);
    AssignLeads(g, r, w, Leads(g, [], r, w).value, n, v);
  }

  lemma NoLeafSameFromAt(h: Heap, r: nat, p: Path)
    ensures SameFrom(h, NoLeaf(h, r, p), ToRoute(p))
  {
    if p != [] && Last(p).keys == map[] {
      var w := ToRoute(Init(p));
      FieldPlace(p);
      var m := Leads(h, [], r, w);
      if m.Some? {
        PokeSameFrom(h, w, m.value, Obj(Read(h, w, m.value).leaves - {Last(p).name}, Read(h, w, m.value).links), ToRoute(p));
      }
    }
    hide Leads, Read, ToRoute;
  }

  /** What a struct of the same place holds that is out of the tree is not changed, and it stays out. */
  lemma WriteStructOther(h: Heap, r: nat, p: Path, n: nat, k: nat)
    requires Sound(h) && ([], r) in h.objs && (ToRoute(p), k) in h.objs && Leads(h, [], r, ToRoute(p)) != Some(k)
    ensures var w, g := ToRoute(p), WriteStruct(h, r, p, n);
            && (forall v :: Leads(g, w, k, v) == Leads(h, w, k, v)) && (forall q :: Sees(g, w, k, q) == Sees(h, w, k, q))
            && Leads(g, [], r, w) != Some(k)
  {
    hide *;
    var w := ToRoute(p);
    WriteStructIs(h, r, p, n);
    if Leads(h, [], r, w) != Some(n) {
      var e := Ensure(h, r, w);
      var g := NoLeaf(e, r, p);
      EnsureSameFrom(h, r, w, w);
      EnsureTame(h, r, w);
      TameParts(h, r, e, r, [], r);
      EnsuredOther(h, r, e, w, k);
      NoLeafLeads(e, r, p, w);
      NoLeafSameFromAt(e, r, p);
      SameFromMore(h, e, g, w);
      SameFromSees(h, g, w, k);
      var m := Leads(g, [], r, w).value;
      PokeAbove(g, [], r, w, m, Read(g, w, n), 0, w);
      PokeSees(g, w, k, m, Read(g, w, n));
    }
  }

  lemma EnsuredOther(h: Heap, r: nat, e: Heap, w: Route, k: nat)
    requires Sound(h) && (w, k) in h.objs && Leads(h, [], r, w) != Some(k) && Owned(h, r, [], r, w, Leads(e, [], r, w))
    ensures Leads(e, [], r, w) != Some(k)
  {
    hide Leads;
  }

  lemma PokeSees(h: Heap, w: Route, k: nat, m: nat, o: Obj)
    requires k != m
    ensures var g := Poke(h, w, m, o, 0);
            (forall v :: Leads(g, w, k, v) == Leads(h, w, k, v)) && (forall q :: Sees(g, w, k, q) == Sees(h, w, k, q))
  {
    var g := Poke(h, w, m, o, 0);
    PokeRead(h, w, m, o, 0);
    LeadsHere(h, w, k, w);
    forall v
      ensures Leads(g, w, k, v) == Leads(h, w, k, v)
    {
      PokeOther(h, w, k, w, m, o, 0, v);
    }
    hide Poke, Read;
    forall q
      ensures Sees(g, w, k, q) == Sees(h, w, k, q)
    {
      if q != [] && ToRoute(Init(q)) != w {
        assert forall x: nat :: Read(g, ToRoute(Init(q)), x) == Read(h, ToRoute(Init(q)), x);
      }
      hide Leads;
    }
  }
}
