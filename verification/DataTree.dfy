/** The configuration tree behind gnmi/model: what writing, deleting and creating nodes does to it
    (gnmi/model/utilities.go). The tree is a finite map from paths to leaves and list entries;
    a container is there as long as something is below it. */
module DataTree {
  import opened Text
  import opened PathText
  import opened Schema
  import opened Wildcards

  datatype Cell = Leaf(value: string) | ListEntry
  type Tree = map<Path, Cell>

  /** Everything at p and below. */
  function Sub(t: Tree, p: Path): Tree {
    map q | q in t && p <= q :: t[q]
  }

  /** ytypes.DeleteNode: nothing is left at p and below. */
  function Delete(t: Tree, p: Path): Tree {
    map q | q in t && !(p <= q) :: t[q]
  }

  /** At p and below the tree becomes like s. */
  function Put(t: Tree, p: Path, s: Tree): Tree {
    Delete(t, p) + Sub(s, p)
  }

  /** The paths of the key leaves of the list entry p. */
  function KeyPaths(p: Path): (qs: set<Path>)
    requires p != []
    ensures forall q :: q in qs ==> |q| == |p| + 1 && p <= q && Last(q).name in Last(p).keys
  {
    set k | k in Last(p).keys :: p + [Elem(k, map[])]
  }

  /** A new list entry comes with the leaves of its keys. */
  function NewEntry(p: Path): Tree
    requires p != []
  {
    map[p := ListEntry] + map q | q in KeyPaths(p) :: Leaf(Last(p).keys[Last(q).name])
  }

  /** GetOrCreateNode: the list entries on the way to p, and p itself, are created where missing. */
  function Create(t: Tree, p: Path): Tree {
    if p == [] then t
    else
      var u := Create(t, Init(p));
      if Last(p).keys == map[] || p in u then u else u + NewEntry(p)
  }

  /** If the i-th element of p names a list entry, that entry exists. */
  predicate EntryThere(t: Tree, p: Path, i: nat)
    requires i < |p|
  {
    p[i].keys != map[] ==> p[..i + 1] in t
  }

  /** The list entries above p exist. */
  predicate Anchored(t: Tree, p: Path) {
    forall i :: 0 <= i < |p| - 1 ==> EntryThere(t, p, i)
  }

  /** How many leading elements of p the schema resolves. */
  function Reach(root: Entry, p: Path): (n: nat)
    ensures n <= |p|
    ensures n == |p| <==> Descend(root, Names(p)).Some?
  {
    if p == [] then 0
    else
      assert Names(Init(p)) == Init(Names(p));
      var n := Reach(root, Init(p));
      if n < |p| - 1 || Descend(root, Names(p)).None? then n else |p|
  }

  /** What a value decodes to at its target: the cells it writes, and whether decoding succeeds. */
  datatype Decoded = Decoded(cells: Tree, ok: bool)

  /** WriteTypedValue: nodes are created as far as the schema goes, then the decoded cells are written. */
  function WriteTyped(root: Entry, t: Tree, p: Path, d: Decoded): Tree {
    if Reach(root, p) < |p| then Create(t, p[..Reach(root, p)])
    else Create(t, p) + Sub(d.cells, p)
  }

  predicate WriteOk(root: Entry, p: Path, d: Decoded) {
    Reach(root, p) == |p| && d.ok
  }

  /** WriteValue with a value that was taken from the tree. */
  function WriteValue(t: Tree, p: Path, s: Tree): Tree {
    Put(Create(t, p), p, s)
  }

  /** DeleteValue does nothing for the root, and for a name that occurs in the key text of its parent. */
  predicate Refuses(root: Entry, p: Path) {
    || p == []
    || (&& Descend(root, Names(p)).Some?
        && Descend(root, Names(Init(p))).Some?
        && Contains(Descend(root, Names(Init(p))).value.key, Last(p).name))
  }

  function DeleteValue(root: Entry, t: Tree, p: Path): Tree {
    if Descend(root, Names(p)).None? || Refuses(root, p) then t else Delete(t, p)
  }

  // ---------------------------------------------------------------- cell by cell

  lemma DeleteAt(t: Tree, p: Path, q: Path)
    ensures At(Delete(t, p), q) == if p <= q then None else At(t, q)
  {
  }

  lemma PutAt(t: Tree, p: Path, s: Tree, q: Path)
    ensures At(Put(t, p, s), q) == At(if p <= q then s else t, q)
  {
  }

  lemma NewEntryBelow(p: Path)
    requires p != []
    ensures forall q :: q in NewEntry(p) ==> p <= q
  {
  }

  lemma {:induction false} CreateNothing(t: Tree, p: Path)
    requires forall i :: 0 <= i < |p| ==> EntryThere(t, p, i)
    ensures Create(t, p) == t
  {
    if p != [] {
      EntriesOfPrefix(t, p, |p| - 1);
      CreateNothing(t, Init(p));
      assert p[..|p|] == p && EntryThere(t, p, |p| - 1);
    }
  }

  lemma EntriesOfPrefix(t: Tree, p: Path, n: nat)
    requires n <= |p|
    ensures forall i :: 0 <= i < n ==> (EntryThere(t, p[..n], i) <==> EntryThere(t, p, i))
  {
    forall i | 0 <= i < n
      ensures EntryThere(t, p[..n], i) <==> EntryThere(t, p, i)
    {
      assert p[..n][..i + 1] == p[..i + 1];
    }
  }

  /** Below entries that exist, creating p touches only p and below. */
  lemma CreateAnchored(t: Tree, p: Path)
    requires Anchored(t, p)
    ensures forall q :: !(p <= q) ==> At(Create(t, p), q) == At(t, q)
  {
    if p != [] {
      EntriesOfPrefix(t, p, |p| - 1);
      CreateNothing(t, Init(p));
      NewEntryBelow(p);
    }
  }

  lemma CreatePrefixAnchored(t: Tree, p: Path, n: nat)
    requires Anchored(t, p) && n < |p|
    ensures Create(t, p[..n]) == t
  {
    EntriesOfPrefix(t, p, n);
    assert forall i :: 0 <= i < n ==> EntryThere(t, p, i);
    CreateNothing(t, p[..n]);
  }

  /** Below entries that exist, writing p touches only p and below. */
  lemma WriteTypedAnchored(root: Entry, t: Tree, p: Path, d: Decoded)
    requires Anchored(t, p)
    ensures forall q :: !(p <= q) ==> At(WriteTyped(root, t, p, d), q) == At(t, q)
  {
    if Reach(root, p) < |p| {
      CreatePrefixAnchored(t, p, Reach(root, p));
    } else {
      CreateAnchored(t, p);
    }
  }

  lemma WriteValueAt(t: Tree, p: Path, s: Tree, q: Path)
    requires Anchored(t, p)
    ensures At(WriteValue(t, p, s), q) == At(if p <= q then s else t, q)
  {
    CreateAnchored(t, p);
    PutAt(Create(t, p), p, s, q);
  }

  lemma DeleteAnchored(t: Tree, p: Path)
    requires Anchored(t, p)
    ensures Anchored(Delete(t, p), p)
  {
    forall i | 0 <= i < |p| - 1
      ensures EntryThere(Delete(t, p), p, i)
    {
      assert EntryThere(t, p, i);
    }
  }

  method GetOrCreateNode(t: Tree, gpath: Path) returns (u: Tree)
    ensures u == Create(t, gpath)
  {
    u := t;
    for i := 0 to |gpath|
      invariant u == Create(t, gpath[..i])
    {
      var p := gpath[..i + 1];
      assert Init(p) == gpath[..i] && Last(p) == gpath[i];
      if gpath[i].keys != map[] && p !in u {
        u := u + NewEntry(p);
      }
    }
    assert gpath[..|gpath|] == gpath;
  }

  // ---------------------------------------------------------------- creating and deleting, spelled out

  /** DeleteValue deletes a node of the schema, unless it is the root or its name occurs in the key text of its parent. */
  lemma DeleteValueExact(root: Entry, t: Tree, p: Path)
    requires p != []
    ensures Descend(root, Names(p)).Some? ==> Descend(root, Names(Init(p))).Some?
    ensures DeleteValue(root, t, p)
            == if Descend(root, Names(p)).Some?
                  && forall i :: 0 <= i <= |Descend(root, Names(Init(p))).value.key|
                                 ==> !(Last(p).name <= Descend(root, Names(Init(p))).value.key[i..])
               then map q | q in t && !(p <= q) :: t[q]
               else t
  {
    assert Init(Names(p)) == Names(Init(p));
    hide Names;
    if Descend(root, Names(p)).Some? {
      var text := Descend(root, Names(Init(p))).value.key;
      assert Contains(text, Last(p).name) <==> exists i :: 0 <= i <= |text| && Last(p).name <= text[i..];
    }
  }

  /** A value for a path that leaves the schema makes the entries on the part that does not, and nothing more. */
  lemma {:induction false} ReachExact(root: Entry, p: Path)
    ensures var n := Reach(root, p);
            && Descend(root, Names(p[..n])).Some?
            && (n < |p| ==> Descend(root, Names(p[..n + 1])).None?)
  {
    assert p[..|p|] == p;
    if p != [] {
      ReachExact(root, Init(p));
      var n := Reach(root, Init(p));
      assert Init(p)[..n] == p[..n];
      if n < |p| - 1 {
        assert Init(p)[..n + 1] == p[..n + 1];
      } else {
        assert p[..n] == Init(p) && p[..n + 1] == p;
        assert Names(Init(p)) == Init(Names(p));
      }
    }
  }

  lemma UnresolvedWrite(root: Entry, t: Tree, p: Path, d: Decoded, n: nat)
    requires n < |p| && Descend(root, Names(p[..n])).Some? && Descend(root, Names(p[..n + 1])).None?
    ensures WriteTyped(root, t, p, d) == Create(t, p[..n])
  {
    ReachExact(root, p);
    var m := Reach(root, p);
    hide Descend, WriteTyped, Reach;
    ResolvedPrefix(root, p, m, n);
    ResolvedPrefix(root, p, n, m);
    WriteUnresolved(root, t, p, d);
  }

  lemma WriteUnresolved(root: Entry, t: Tree, p: Path, d: Decoded)
    requires Reach(root, p) < |p|
    ensures WriteTyped(root, t, p, d) == Create(t, p[..Reach(root, p)])
  {
  }

  /** The schema resolves a prefix of what it resolves. */
  lemma ResolvedPrefix(root: Entry, p: Path, m: nat, n: nat)
    requires m <= |p| && n < |p| && Descend(root, Names(p[..m])).Some? && Descend(root, Names(p[..n + 1])).None?
    ensures m <= n
  {
    if m > n {
      var a, b := Names(p[..n + 1]), Names(p[n + 1..m]);
      assert Names(p[..m]) == a + b;
      NoneStays(root, a, b);
    }
  }
}
