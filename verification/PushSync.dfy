/** Whether the pushes of a Set request keep the external store in step with the tree (executeStateConfig in
    gnmi/model/set.go and ListAll in gnmi/model/mo.go). */
module PushSync {
  import opened Text
  import opened PathText
  import opened Schema
  import opened DataTree
  import opened Transaction
  import S = StateConfig

  /** The nodes that an old value lists: a leaf has no nodes, and a container changed in place has its new ones. */
  function OldNodes(below: (Tree, Path) -> seq<S.Node>, t: Tree, held: Held, gpath: Path): seq<S.Node> {
    match held
    case Nil => []
    case Snapshot(cells) => if IsLeaf(cells, gpath) then [] else below(cells, gpath)
    case Live => below(t, gpath)
  }

  /** The nodes that the tree lists for a target: a leaf itself, or what is below a container. */
  function NewNodes(below: (Tree, Path) -> seq<S.Node>, text: Path -> string, t: Tree, gpath: Path): seq<S.Node> {
    if IsLeaf(t, gpath) then [S.Node(text(gpath), t[gpath].value)] else below(t, gpath)
  }

  /** What ListAll is taken to do: it looks at nothing but what is at the path and below, it finds nothing where there
      is nothing, and it finds no less where there is more. */
  ghost predicate ListsBelow(below: (Tree, Path) -> seq<S.Node>) {
    && (forall t, p :: below(Sub(t, p), p) == below(t, p))
    && (forall p :: below(map[], p) == [])
    && (forall t, u, p :: Sub(t, p).Keys <= Sub(u, p).Keys ==> S.Paths(below(t, p)) <= S.Paths(below(u, p)))
  }

  /** The part of the store for the target p: it has a place for p itself and for all that is listed below. */
  ghost predicate PartOf(below: (Tree, Path) -> seq<S.Node>, text: Path -> string, p: Path, part: string -> bool) {
    part(text(p)) && forall t, n | n in below(t, p) :: part(n.path)
  }

  /** The old value stands for what the tree has at p. */
  ghost predicate ViewOf(t: Tree, p: Path, held: Held) {
    match held
    case Nil => Sub(t, p) == map[]
    case Snapshot(cells) => cells == Sub(t, p)
    case Live => !IsLeaf(t, p)
  }

  /** The external store where the push for p, with the old value held, leaves it. */
  function PushedData(below: (Tree, Path) -> seq<S.Node>, text: Path -> string, data: S.Data, u: Tree, held: Held, p: Path,
      removes: (string, string) -> bool): S.Data
  {
    S.AfterAll(data, S.Script(OldNodes(below, u, held, p), NewNodes(below, text, u, p)), removes)
  }

  /** The store holds at p and below what the tree lists there. */
  ghost predicate Synced(below: (Tree, Path) -> seq<S.Node>, text: Path -> string, data: S.Data, t: Tree, p: Path,
      part: string -> bool)
  {
    S.Agrees(data, NewNodes(below, text, t, p), part)
  }

  lemma NothingListed(below: (Tree, Path) -> seq<S.Node>, t: Tree, p: Path)
    requires ListsBelow(below) && Sub(t, p) == map[]
    ensures below(t, p) == []
  {
    assert below(Sub(t, p), p) == below(t, p);
  }

  /** A store in step with the tree t at a target is in step with the tree u after the push exactly when
      the old value was no leaf that is gone, and no container changed in place that lists less than before. */
  lemma TargetPushedExact(below: (Tree, Path) -> seq<S.Node>, text: Path -> string, data: S.Data, t: Tree, u: Tree,
      held: Held, p: Path, part: string -> bool, removes: (string, string) -> bool)
    requires ListsBelow(below) && PartOf(below, text, p, part)
    requires ViewOf(t, p, held) && Synced(below, text, data, t, p, part)
    requires IsLeaf(t, p) ==> IsLeaf(u, p) || Sub(u, p) == map[]
    requires held.Live? ==> !IsLeaf(u, p)
    ensures Synced(below, text, PushedData(below, text, data, u, held, p, removes), u, p, part)
            <==> if IsLeaf(t, p) then IsLeaf(u, p)
                 else held.Live? ==> S.Paths(below(t, p)) <= S.Paths(below(u, p))
  {
    var was, cur, new_ := NewNodes(below, text, t, p), OldNodes(below, u, held, p), NewNodes(below, text, u, p);
    ListedInPart(below, text, t, p, part);
    ListedInPart(below, text, u, p, part);
    S.PushesNewStateExact(data, was, cur, new_, part, removes);
    OldAre(below, text, t, u, held, p);
    if IsLeaf(t, p) {
      LeafListed(below, text, t, p);
      if IsLeaf(u, p) {
        LeafListed(below, text, u, p);
      } else {
        NothingListed(below, u, p);
      }
      NothingDropped(S.Paths(new_), text(p), removes);
    } else if held.Live? {
      NothingNew(cur, removes);
    } else {
      OldDropped(cur, S.Paths(new_), removes);
    }
  }

  lemma ListedInPart(below: (Tree, Path) -> seq<S.Node>, text: Path -> string, t: Tree, p: Path, part: string -> bool)
    requires PartOf(below, text, p, part)
    ensures forall n :: n in NewNodes(below, text, t, p) ==> part(n.path)
    ensures forall q :: q in S.Paths(NewNodes(below, text, t, p)) ==> part(q)
  {
  }

  /** The nodes that the push takes for the old ones. */
  lemma OldAre(below: (Tree, Path) -> seq<S.Node>, text: Path -> string, t: Tree, u: Tree, held: Held, p: Path)
    requires ListsBelow(below) && ViewOf(t, p, held) && (held.Live? ==> !IsLeaf(u, p))
    ensures OldNodes(below, u, held, p)
            == if IsLeaf(t, p) then []
               else if held.Live? then NewNodes(below, text, u, p)
               else NewNodes(below, text, t, p)
  {
    if IsLeaf(t, p) {
      assert p in Sub(t, p);
    } else if held.Nil? {
      NothingListed(below, t, p);
    } else if held.Snapshot? {
      assert below(Sub(t, p), p) == below(t, p);
    }
  }

  lemma LeafListed(below: (Tree, Path) -> seq<S.Node>, text: Path -> string, t: Tree, p: Path)
    requires IsLeaf(t, p)
    ensures S.Paths(NewNodes(below, text, t, p)) == {text(p)}
  {
    var n := S.Node(text(p), t[p].value);
    assert n in [n];
  }

  lemma NothingDropped(keep: set<string>, q: string, removes: (string, string) -> bool)
    ensures !S.Dropped([], keep, q, removes)
  {
  }

  /** Where the old nodes are the new ones, none is deleted. */
  lemma NothingNew(cur: seq<S.Node>, removes: (string, string) -> bool)
    ensures forall q :: !S.Dropped(cur, S.Paths(cur), q, removes)
  {
  }

  lemma OldDropped(cur: seq<S.Node>, keep: set<string>, removes: (string, string) -> bool)
    ensures forall q :: q in S.Paths(cur) && q !in keep ==> S.Dropped(cur, keep, q, removes)
  {
    forall q | q in S.Paths(cur) && q !in keep
      ensures S.Dropped(cur, keep, q, removes)
    {
      var n :| n in cur && n.path == q;
      assert S.Takes(n.path, q, removes);
    }
  }

  /** The decoded value is of the kind of the node that is there. */
  predicate SameKind(t: Tree, x: Target) {
    IsLeaf(t, x.path) <==> IsLeaf(x.value.cells, x.path)
  }

  lemma LeafWritten(root: Entry, t: Tree, optype: OpType, x: Target, held: Held)
    requires IsLeaf(t, x.path) && !held.Nil? && WritesOk(root, optype, x, held)
    ensures optype == DELETE ==> Sub(Written(root, optype, t, x, held), x.path) == map[]
    ensures optype != DELETE && SameKind(t, x) ==> IsLeaf(Written(root, optype, t, x, held), x.path)
  {
    if optype != DELETE && SameKind(t, x) {
      assert x.path in Sub(x.value.cells, x.path);
    }
  }

  lemma ContainerUpdated(root: Entry, t: Tree, optype: OpType, x: Target)
    requires Anchored(t, x.path) && !IsLeaf(t, x.path) && SameKind(t, x) && WritesOk(root, optype, x, Live)
    requires optype != DELETE && !Detaches(optype, x)
    ensures !IsLeaf(Written(root, optype, t, x, Live), x.path)
    ensures Sub(t, x.path).Keys <= Sub(Written(root, optype, t, x, Live), x.path).Keys
  {
    var p := x.path;
    CreateGrows(t, p);
    CreateIs(t, p, p);
    assert At(t, p) == (if p in t then Some(t[p]) else None);
  }

  /** After an operation that succeeds, the push for its target keeps the store in step with the tree exactly
      when the operation is not the delete of a leaf. */
  lemma OperationPushedExact(root: Entry, below: (Tree, Path) -> seq<S.Node>, text: Path -> string, data: S.Data, t: Tree,
      optype: OpType, x: Target, held: Held, part: string -> bool, removes: (string, string) -> bool)
    requires ListsBelow(below) && PartOf(below, text, x.path, part)
    requires held == Hold(optype, t, x) || (held.Nil? && optype != DELETE && Sub(t, x.path) == map[])
    requires WritesOk(root, optype, x, held) && (held.Live? ==> Anchored(t, x.path))
    requires held.Nil? || optype == DELETE || SameKind(t, x)
    requires Synced(below, text, data, t, x.path, part)
    ensures var u := Written(root, optype, t, x, held);
            Synced(below, text, PushedData(below, text, data, u, held, x.path, removes), u, x.path, part)
            <==> !(optype == DELETE && IsLeaf(t, x.path))
  {
    var p, u := x.path, Written(root, optype, t, x, held);
    if IsLeaf(t, p) {
      assert p in Sub(t, p);
      LeafWritten(root, t, optype, x, held);
    } else if held.Live? {
      ContainerUpdated(root, t, optype, x);
      assert S.Paths(below(t, p)) <= S.Paths(below(u, p));
    }
    TargetPushedExact(below, text, data, t, u, held, p, part, removes);
  }

  /** FindValue just before an entry is undone: a container that the undoing takes out of the tree stays as it
      is, one that the undoing writes to changes in place. */
  function FindValue(root: Entry, t: Tree, b: Backup): Held {
    if Sub(t, b.gpath) == map[] then Nil
    else if IsLeaf(t, b.gpath) || (b.held.Nil? && !Refuses(root, b.gpath)) then Snapshot(Sub(t, b.gpath))
    else Live
  }

  /** The old value is of the kind of the node that is there. */
  predicate SameKindHeld(t: Tree, b: Backup) {
    b.held.Snapshot? && Sub(t, b.gpath) != map[] ==> (IsLeaf(t, b.gpath) <==> IsLeaf(b.held.cells, b.gpath))
  }

  lemma UndoKind(root: Entry, t: Tree, b: Backup)
    requires SameKindHeld(t, b) && (b.held.Nil? ==> Descend(root, Names(b.gpath)).Some?)
    ensures IsLeaf(t, b.gpath) && b.held.Nil? && !Refuses(root, b.gpath)
            ==> Sub(Undo(root, t, b), b.gpath) == map[] && !IsLeaf(Undo(root, t, b), b.gpath)
    ensures IsLeaf(t, b.gpath) && (!b.held.Nil? || Refuses(root, b.gpath)) ==> IsLeaf(Undo(root, t, b), b.gpath)
    ensures FindValue(root, t, b).Live? ==> !IsLeaf(Undo(root, t, b), b.gpath)
  {
    var p := b.gpath;
    assert At(t, p) == if p in t then Some(t[p]) else None;
    if IsLeaf(t, p) {
      assert p in Sub(t, p);
    }
    if b.held.Snapshot? {
      PutAt(Create(t, p), p, b.held.cells, p);
    }
  }

  lemma FoundView(root: Entry, t: Tree, b: Backup)
    ensures ViewOf(t, b.gpath, FindValue(root, t, b))
    ensures IsLeaf(t, b.gpath) ==> Sub(t, b.gpath) != map[]
    ensures FindValue(root, t, b).Live?
            <==> Sub(t, b.gpath) != map[] && !IsLeaf(t, b.gpath) && !(b.held.Nil? && !Refuses(root, b.gpath))
  {
    if IsLeaf(t, b.gpath) {
      assert b.gpath in Sub(t, b.gpath);
    }
  }

  /** The push of the rollback keeps the store in step with the tree where a deleted node comes back and where a new
      container goes, but not where a new leaf goes; a container that is written back has to list all that it
      listed before. */
  lemma CompensationExact(root: Entry, below: (Tree, Path) -> seq<S.Node>, text: Path -> string, data: S.Data, t: Tree,
      b: Backup, part: string -> bool, removes: (string, string) -> bool)
    requires ListsBelow(below) && PartOf(below, text, b.gpath, part)
    requires SameKindHeld(t, b) && (b.held.Nil? ==> Descend(root, Names(b.gpath)).Some?)
    requires Synced(below, text, data, t, b.gpath, part)
    ensures var u := Undo(root, t, b);
            Synced(below, text, PushedData(below, text, data, u, FindValue(root, t, b), b.gpath, removes), u, b.gpath, part)
            <==> (|| Sub(t, b.gpath) == map[]
                  || (if b.held.Nil? && !Refuses(root, b.gpath) then !IsLeaf(t, b.gpath)
                      else IsLeaf(t, b.gpath) || S.Paths(below(t, b.gpath)) <= S.Paths(below(u, b.gpath))))
  {
    hide *;
    var p, u := b.gpath, Undo(root, t, b);
    UndoKind(root, t, b);
    FoundView(root, t, b);
    if Sub(t, p) == map[] {
      NothingListed(below, t, p);
    }
    TargetPushedExact(below, text, data, t, u, FindValue(root, t, b), p, part, removes);
  }

  /** A deleted leaf is in no list, so the external store is not told to delete it; and a leaf that is replaced
      or updated is not in the old list, so the store is told to create it. */
  lemma LeafChangesPushed(below: (Tree, Path) -> seq<S.Node>, text: Path -> string, t: Tree, u: Tree, optype: OpType,
      x: Target)
    requires IsLeaf(t, x.path) && (x.path !in u ==> below(u, x.path) == [])
    requires x.path in u ==> u[x.path].Leaf?
    ensures S.Script(OldNodes(below, u, Hold(optype, t, x), x.path), NewNodes(below, text, u, x.path))
            == if x.path in u then [S.Create(text(x.path), u[x.path].value)] else []
  {
    var p := x.path;
    var old_ := OldNodes(below, u, Hold(optype, t, x), p);
    assert p in Sub(t, p) && old_ == [];
    if p in u {
      var n := S.Node(text(p), u[p].value);
      assert Init([n]) == [] && Last([n]) == n;
      assert S.Writes([], S.Paths(old_)) == [];
    }
  }
}
