/** gnmi/model/set.go and Server.set: the Set transaction on the tree, with its backup log, and the
    rollback that walks the log forwards (section 3.4.3 of the gNMI specification).
    What other parts answer (the path parser, the schema, the decoder, the external store) are inputs. */
module Transaction {
  import opened Text
  import opened PathText
  import opened Schema
  import opened Wildcards
  import opened DataTree

  datatype OpType = DELETE | REPLACE | UPDATE

  /** The old value of a backup entry: nil, a value that is not in the tree any more, or a pointer to a container
      that stays in the tree. */
  datatype Held = Nil | Snapshot(cells: Tree) | Live

  datatype Backup = Backup(optype: OpType, gpath: Path, held: Held, executed: bool)

  /** One target of an operation and the answers about it: whether its text parses, its schema is
      read-only, DeleteNode succeeds, and what the new value decodes to. */
  datatype Target = Target(path: Path, parsed: bool, readOnly: bool, deletable: bool, value: Decoded)

  /** The tree, the log, and whether an operation has failed. */
  datatype St = St(tree: Tree, log: seq<Backup>, failed: bool)

  predicate IsLeaf(t: Tree, p: Path) {
    p in t && t[p].Leaf?
  }

  /** The operation takes its target out of the tree; DeleteNode does nothing for the root. */
  predicate Detaches(optype: OpType, x: Target) {
    (optype == DELETE && (x.path == [] || x.deletable)) || (optype == REPLACE && x.path != [] && x.deletable)
  }

  /** What Get returns for a target is kept as it is; a container that is not taken out stays in the tree. */
  function Hold(optype: OpType, t: Tree, x: Target): Held {
    if IsLeaf(t, x.path) || Detaches(optype, x) then Snapshot(Sub(t, x.path)) else Live
  }

  function Written(root: Entry, optype: OpType, t: Tree, x: Target, held: Held): Tree {
    if held.Nil? || optype == UPDATE then WriteTyped(root, t, x.path, x.value)
    else if x.path == [] && optype == DELETE then map[]
    else if !x.deletable then t
    else if x.path == [] then WriteTyped(root, t, x.path, x.value)
    else if optype == DELETE then Delete(t, x.path)
    else WriteTyped(root, Delete(t, x.path), x.path, x.value)
  }

  predicate WritesOk(root: Entry, optype: OpType, x: Target, held: Held) {
    if held.Nil? || optype == UPDATE then WriteOk(root, x.path, x.value)
    else if optype == DELETE then x.path == [] || x.deletable
    else x.deletable && WriteOk(root, x.path, x.value)
  }

  /** One target: refused before anything happens, or logged, written and pushed to the external store. */
  function One(root: Entry, optype: OpType, st: St, x: Target, held: Held, pushed: bool): St {
    if (!x.parsed && !held.Nil?) || x.readOnly then st.(failed := true)
    else
      var done := WritesOk(root, optype, x, held) && pushed;
      St(Written(root, optype, st.tree, x, held), st.log + [Backup(optype, x.path, held, done)], !done)
  }

  /** The loop over the targets that Get found; their old values are those at the start, in t0. */
  function RunTargets(root: Entry, optype: OpType, t0: Tree, st: St, targets: seq<Target>, pushed: seq<bool>): St
    requires |pushed| == |targets|
  {
    if targets == [] then st
    else
      var before := RunTargets(root, optype, t0, st, Init(targets), Init(pushed));
      if before.failed then before
      else One(root, optype, before, Last(targets), Hold(optype, t0, Last(targets)), Last(pushed))
  }

  /** One operation of a request: its full path, the targets that Get finds, and whether each push succeeds. */
  datatype Op = Op(optype: OpType, full: Target, targets: seq<Target>, pushed: seq<bool>, pushedNew: bool)

  predicate WellFormed(op: Op) {
    |op.pushed| == |op.targets|
  }

  /** SetDelete, SetReplace and SetUpdate. */
  function RunOp(root: Entry, st: St, op: Op): St
    requires WellFormed(op)
  {
    if op.targets == [] then
      if op.optype == DELETE then st else One(root, op.optype, st, op.full, Nil, op.pushedNew)
    else RunTargets(root, op.optype, st.tree, st, op.targets, op.pushed)
  }

  lemma OpIs(root: Entry, st: St, op: Op)
    requires WellFormed(op)
    ensures |op.pushed| == |op.targets|
    ensures RunOp(root, st, op)
            == if op.targets != [] then RunTargets(root, op.optype, st.tree, st, op.targets, op.pushed)
               else if op.optype == DELETE then st
               else One(root, op.optype, st, op.full, Nil, op.pushedNew)
  {
  }

  /** Server.set up to the rollback: after a failure the remaining operations are aborted. */
  function RunOps(root: Entry, st: St, ops: seq<Op>): St
    requires forall op :: op in ops ==> WellFormed(op)
  {
    if ops == [] then st
    else
      var before := RunOps(root, st, Init(ops));
      if before.failed then before else RunOp(root, before, Last(ops))
  }

  /** Undoing one backup entry. */
  function Undo(root: Entry, t: Tree, b: Backup): Tree {
    match b.held
    case Nil => DeleteValue(root, t, b.gpath)
    case Snapshot(cells) => WriteValue(t, b.gpath, cells)
    case Live => t
  }

  /** SetRollback and SetDone, on the tree: the log is walked forwards. */
  function UndoAll(root: Entry, t: Tree, log: seq<Backup>): Tree {
    if log == [] then t else Undo(root, UndoAll(root, t, Init(log)), Last(log))
  }

  // ---------------------------------------------------------------- when the log can be undone

  predicate Related(p: Path, q: Path) {
    p <= q || q <= p
  }

  ghost predicate Unrelated(log: seq<Backup>) {
    forall i, j :: 0 <= i < j < |log| ==> !Related(log[i].gpath, log[j].gpath)
  }

  /** The targets are pairwise unrelated, and the list entries above each of them existed in t0. */
  ghost predicate TargetsApart(t0: Tree, log: seq<Backup>) {
    Unrelated(log) && forall b :: b in log ==> Anchored(t0, b.gpath)
  }

  /** A missing target outside the schema is logged, but neither writing nor undoing it does anything. */
  predicate Touches(root: Entry, b: Backup) {
    b.held.Nil? ==> Descend(root, Names(b.gpath)).Some?
  }

  /** q is at or below a target that some entry touches. */
  predicate Covered(root: Entry, log: seq<Backup>, q: Path) {
    exists b :: b in log && Touches(root, b) && b.gpath <= q
  }

  /** Outside the targets of the log the trees are the same. */
  ghost predicate Tracks(root: Entry, t0: Tree, t: Tree, log: seq<Backup>) {
    forall q :: !Covered(root, log, q) ==> At(t, q) == At(t0, q)
  }

  ghost predicate NothingBelow(t: Tree, p: Path) {
    forall q :: p <= q ==> At(t, q) == None
  }

  ghost predicate SameBelow(s: Tree, t: Tree, p: Path) {
    forall q :: p <= q ==> At(s, q) == At(t, q)
  }

  /** The entry holds what was in t0 at its target and below. */
  ghost predicate HoldsOld(t0: Tree, b: Backup) {
    match b.held
    case Nil => NothingBelow(t0, b.gpath)
    case Snapshot(cells) => SameBelow(cells, t0, b.gpath)
    case Live => true
  }

  ghost predicate LogRight(root: Entry, t0: Tree, st: St) {
    Tracks(root, t0, st.tree, st.log) && forall b :: b in st.log ==> HoldsOld(t0, b)
  }

  /** An operation for which Get found nothing names a place with nothing in it. */
  ghost predicate FoundAll(t: Tree, op: Op) {
    op.targets == [] && op.optype != DELETE ==> NothingBelow(t, op.full.path)
  }

  ghost predicate AlwaysFoundAll(root: Entry, st: St, ops: seq<Op>)
    requires forall op :: op in ops ==> WellFormed(op)
  {
    ops != [] ==> (
      && AlwaysFoundAll(root, st, Init(ops))
      && FoundAll(RunOps(root, st, Init(ops)).tree, Last(ops)))
  }

  /** Paths that lead to the same node are related. */
  lemma SameNodeRelated(p: Path, q: Path, r: Path)
    requires p <= r && q <= r
    ensures Related(p, q)
  {
    if |p| <= |q| {
      assert p == r[..|p|] == q[..|p|];
    } else {
      assert q == r[..|q|] == p[..|q|];
    }
  }

  lemma NotCovered(root: Entry, log: seq<Backup>, p: Path, q: Path)
    requires forall b :: b in log ==> !Related(b.gpath, p)
    requires p <= q
    ensures !Covered(root, log, q)
  {
    if Covered(root, log, q) {
      var b :| b in log && Touches(root, b) && b.gpath <= q;
      SameNodeRelated(b.gpath, p, q);
    }
  }

  /** A node above p is covered by no target that is unrelated to p, and not by p itself. */
  lemma NotCoveredAbove(root: Entry, log: seq<Backup>, p: Path, e: Path)
    requires e < p
    requires forall b :: b in log ==> !Related(b.gpath, p) || b.gpath == p
    ensures !Covered(root, log, e)
  {
  }

  /** What unrelated targets do leaves the entries above p alone. */
  lemma AnchoredThrough(root: Entry, t0: Tree, t: Tree, log: seq<Backup>, p: Path)
    requires Tracks(root, t0, t, log) && Anchored(t0, p)
    requires forall b :: b in log ==> !Related(b.gpath, p) || b.gpath == p
    ensures Anchored(t, p)
  {
    forall i | 0 <= i < |p| - 1
      ensures EntryThere(t, p, i)
    {
      assert EntryThere(t0, p, i);
      NotCoveredAbove(root, log, p, p[..i + 1]);
      assert At(t, p[..i + 1]) == At(t0, p[..i + 1]);
    }
  }

  // ---------------------------------------------------------------- going forwards

  /** Writing a target changes nothing outside of it, and a missing target outside the schema nothing at all. */
  lemma WrittenOutside(root: Entry, optype: OpType, t: Tree, x: Target, held: Held)
    requires Anchored(t, x.path)
    ensures forall q :: !(x.path <= q) ==> At(Written(root, optype, t, x, held), q) == At(t, q)
    ensures held.Nil? && Descend(root, Names(x.path)).None? ==> Written(root, optype, t, x, held) == t
  {
    if held.Nil? || optype == UPDATE {
      WriteTypedAnchored(root, t, x.path, x.value);
      if Reach(root, x.path) < |x.path| {
        CreatePrefixAnchored(t, x.path, Reach(root, x.path));
      }
    } else if x.path != [] && x.deletable && optype == REPLACE {
      DeleteAnchored(t, x.path);
      WriteTypedAnchored(root, Delete(t, x.path), x.path, x.value);
    }
  }

  /** What an operation that succeeds leaves at its target and below: a delete nothing, a replace the decoded
      value only, an update the decoded value over what was there; and a list entry has its key leaves. */
  lemma WrittenExact(root: Entry, optype: OpType, t: Tree, x: Target, held: Held, after: Tree, q: Path)
    requires Anchored(t, x.path) && WritesOk(root, optype, x, held) && x.path <= q
    requires optype == DELETE ==> !held.Nil?
    requires after == Written(root, optype, t, x, held)
    ensures optype == DELETE ==> At(after, q) == None
    ensures optype != DELETE && q in x.value.cells ==> At(after, q) == Some(x.value.cells[q])
    ensures optype != DELETE && q !in x.value.cells ==>
      At(after, q) == At(WithEntry(if optype == REPLACE && !held.Nil? && x.path != [] then map[] else t, x.path), q)
  {
    var p := x.path;
    if optype == REPLACE && !held.Nil? && p != [] {
      DeleteAnchored(t, p);
      CreateIs(Delete(t, p), p, q);
    } else if optype != DELETE {
      CreateIs(t, p, q);
    }
  }

  /** The entry that p names, if it names one and it is missing. */
  function WithEntry(t: Tree, p: Path): Tree {
    if p == [] || Last(p).keys == map[] || p in t then t else t + NewEntry(p)
  }

  lemma CreateIs(t: Tree, p: Path, q: Path)
    requires Anchored(t, p) && p <= q
    ensures At(Create(t, p), q) == At(WithEntry(t, p), q)
    ensures (forall r :: p <= r ==> At(t, r) == None) ==> At(WithEntry(t, p), q) == At(WithEntry(map[], p), q)
  {
    if p != [] {
      EntriesOfPrefix(t, p, |p| - 1);
      CreateNothing(t, Init(p));
    }
    assert At(t, q) == None || At(t, q) == Some(t[q]);
    if forall r :: p <= r ==> At(t, r) == None {
      assert At(t, p) == None;
    }
  }

  lemma CoveredMore(root: Entry, log: seq<Backup>, b: Backup, q: Path)
    ensures Covered(root, log + [b], q) <==> Covered(root, log, q) || (Touches(root, b) && b.gpath <= q)
  {
    if Covered(root, log, q) {
      var c :| c in log && Touches(root, c) && c.gpath <= q;
      assert c in log + [b];
    }
    if Touches(root, b) && b.gpath <= q {
      assert b in log + [b];
    }
  }

  lemma UnrelatedLast(log: seq<Backup>, b: Backup)
    requires Unrelated(log + [b])
    ensures Unrelated(log) && forall c :: c in log ==> !Related(c.gpath, b.gpath)
  {
    var all := log + [b];
    forall c | c in log
      ensures !Related(c.gpath, b.gpath)
    {
      var i :| 0 <= i < |log| && log[i] == c;
      assert !Related(all[i].gpath, all[|log|].gpath);
    }
    forall i, j | 0 <= i < j < |log|
      ensures !Related(log[i].gpath, log[j].gpath)
    {
      assert !Related(all[i].gpath, all[j].gpath);
    }
  }

  lemma TargetsApartPrefix(t0: Tree, log: seq<Backup>, all: seq<Backup>)
    requires log <= all && TargetsApart(t0, all)
    ensures TargetsApart(t0, log)
  {
    forall i, j | 0 <= i < j < |log|
      ensures !Related(log[i].gpath, log[j].gpath)
    {
      assert log[i] == all[i] && log[j] == all[j];
    }
  }

  /** Writing a target that is unrelated to those before it keeps track of t0. */
  lemma WriteTracks(root: Entry, t0: Tree, st: St, optype: OpType, x: Target, held: Held, b: Backup)
    requires Tracks(root, t0, st.tree, st.log) && Anchored(t0, x.path)
    requires forall c :: c in st.log ==> !Related(c.gpath, x.path)
    requires b.gpath == x.path && b.held == held
    ensures Tracks(root, t0, Written(root, optype, st.tree, x, held), st.log + [b])
  {
    AnchoredThrough(root, t0, st.tree, st.log, x.path);
    WrittenOutside(root, optype, st.tree, x, held);
    hide Written, Anchored;
    forall q | !Covered(root, st.log + [b], q)
      ensures At(Written(root, optype, st.tree, x, held), q) == At(t0, q)
    {
      CoveredMore(root, st.log, b, q);
    }
  }

  /** One more target keeps the log right. */
  lemma OneKeepsLog(root: Entry, t0: Tree, optype: OpType, st: St, x: Target, held: Held, pushed: bool)
    requires LogRight(root, t0, st)
    requires TargetsApart(t0, One(root, optype, st, x, held, pushed).log)
    requires (forall b :: b in st.log ==> !Related(b.gpath, x.path)) ==> HoldsOld(t0, Backup(optype, x.path, held, false))
    ensures LogRight(root, t0, One(root, optype, st, x, held, pushed))
  {
    var after := One(root, optype, st, x, held, pushed);
    if after.log != st.log {
      var b := Last(after.log);
      assert after.log == st.log + [b] && b in after.log;
      UnrelatedLast(st.log, b);
      WriteTracks(root, t0, st, optype, x, held, b);
    }
  }

  /** What Get returned at the start of an operation is what the transaction started with. */
  lemma HoldIsOld(root: Entry, t0: Tree, start: St, optype: OpType, x: Target)
    requires LogRight(root, t0, start)
    requires forall b :: b in start.log ==> !Related(b.gpath, x.path)
    ensures HoldsOld(t0, Backup(optype, x.path, Hold(optype, start.tree, x), false))
  {
    SubIsOld(root, t0, start, x.path);
  }

  lemma SubIsOld(root: Entry, t0: Tree, start: St, p: Path)
    requires LogRight(root, t0, start)
    requires forall b :: b in start.log ==> !Related(b.gpath, p)
    ensures SameBelow(Sub(start.tree, p), t0, p)
  {
    forall q | p <= q
      ensures At(Sub(start.tree, p), q) == At(t0, q)
    {
      NotCovered(root, start.log, p, q);
    }
  }

  lemma {:induction false} TargetsKeepLog(root: Entry, t0: Tree, optype: OpType, st: St, targets: seq<Target>,
      pushed: seq<bool>)
    requires |pushed| == |targets| && LogRight(root, t0, st)
    requires TargetsApart(t0, RunTargets(root, optype, st.tree, st, targets, pushed).log)
    ensures LogRight(root, t0, RunTargets(root, optype, st.tree, st, targets, pushed))
  {
    if targets != [] {
      var before := RunTargets(root, optype, st.tree, st, Init(targets), Init(pushed));
      var after := RunTargets(root, optype, st.tree, st, targets, pushed);
      TargetsApartPrefix(t0, before.log, after.log);
      TargetsKeepLog(root, t0, optype, st, Init(targets), Init(pushed));
      TargetsGrowLog(root, optype, st.tree, st, Init(targets), Init(pushed));
      if !before.failed {
        var x := Last(targets);
        if forall b :: b in before.log ==> !Related(b.gpath, x.path) {
          HoldIsOld(root, t0, st, optype, x);
        }
        hide Hold, LogRight, TargetsApart, HoldsOld;
        OneKeepsLog(root, t0, optype, before, x, Hold(optype, st.tree, x), Last(pushed));
      }
    }
  }

  /** The log only grows. */
  lemma {:induction false} TargetsGrowLog(root: Entry, optype: OpType, t0: Tree, st: St, targets: seq<Target>,
      pushed: seq<bool>)
    requires |pushed| == |targets|
    ensures st.log <= RunTargets(root, optype, t0, st, targets, pushed).log
  {
    if targets != [] {
      TargetsGrowLog(root, optype, t0, st, Init(targets), Init(pushed));
    }
  }

  lemma OpKeepsLog(root: Entry, t0: Tree, st: St, op: Op)
    requires WellFormed(op) && LogRight(root, t0, st) && FoundAll(st.tree, op)
    requires TargetsApart(t0, RunOp(root, st, op).log)
    ensures LogRight(root, t0, RunOp(root, st, op))
    ensures st.log <= RunOp(root, st, op).log
  {
    if op.targets != [] {
      TargetsGrowLog(root, op.optype, st.tree, st, op.targets, op.pushed);
      TargetsKeepLog(root, t0, op.optype, st, op.targets, op.pushed);
    } else if op.optype != DELETE {
      if forall b :: b in st.log ==> !Related(b.gpath, op.full.path) {
        SubIsOld(root, t0, st, op.full.path);
        NothingThenNothing(t0, st.tree, op.full.path);
      }
      OneKeepsLog(root, t0, op.optype, st, op.full, Nil, op.pushedNew);
    }
  }

  lemma NothingThenNothing(t0: Tree, t: Tree, p: Path)
    requires NothingBelow(t, p) && SameBelow(Sub(t, p), t0, p)
    ensures NothingBelow(t0, p)
  {
    forall q | p <= q
      ensures At(t0, q) == None
    {
      assert At(t, q) == None && At(Sub(t, p), q) == At(t0, q);
    }
  }

  lemma {:induction false} RunKeepsLog(root: Entry, t0: Tree, ops: seq<Op>)
    requires forall op :: op in ops ==> WellFormed(op)
    requires AlwaysFoundAll(root, St(t0, [], false), ops)
    requires TargetsApart(t0, RunOps(root, St(t0, [], false), ops).log)
    ensures LogRight(root, t0, RunOps(root, St(t0, [], false), ops))
  {
    if ops != [] {
      var before := RunOps(root, St(t0, [], false), Init(ops));
      if before.failed {
        RunKeepsLog(root, t0, Init(ops));
      } else {
        OpGrowsLog(root, before, Last(ops));
        TargetsApartPrefix(t0, before.log, RunOp(root, before, Last(ops)).log);
        RunKeepsLog(root, t0, Init(ops));
        OpKeepsLog(root, t0, before, Last(ops));
      }
    }
  }

  lemma OpGrowsLog(root: Entry, st: St, op: Op)
    requires WellFormed(op)
    ensures st.log <= RunOp(root, st, op).log
  {
    if op.targets != [] {
      TargetsGrowLog(root, op.optype, st.tree, st, op.targets, op.pushed);
    }
  }

  // ---------------------------------------------------------------- and back

  /** Undoing this entry does something. */
  predicate Undoes(root: Entry, b: Backup) {
    match b.held
    case Nil => Descend(root, Names(b.gpath)).Some? && !Refuses(root, b.gpath)
    case Snapshot(_) => true
    case Live => false
  }

  /** The entry was written, but undoing it does nothing: a container that was updated in place, or a
      new node whose name occurs in the key text of its parent. */
  predicate Sticks(root: Entry, b: Backup) {
    Touches(root, b) && !Undoes(root, b)
  }

  /** q is at or below a target that undoing puts back. */
  predicate Undone(root: Entry, log: seq<Backup>, q: Path) {
    exists b :: b in log && Undoes(root, b) && b.gpath <= q
  }

  lemma UndoneMore(root: Entry, log: seq<Backup>, b: Backup, q: Path)
    ensures Undone(root, log + [b], q) <==> Undone(root, log, q) || (Undoes(root, b) && b.gpath <= q)
  {
    if Undone(root, log, q) {
      var c :| c in log && Undoes(root, c) && c.gpath <= q;
      assert c in log + [b];
    }
    if Undoes(root, b) && b.gpath <= q {
      assert b in log + [b];
    }
  }

  /** Undoing an entry puts back what it holds, and changes nothing outside its target. */
  lemma UndoAt(root: Entry, t0: Tree, t: Tree, b: Backup, q: Path)
    requires Anchored(t, b.gpath) && HoldsOld(t0, b)
    ensures At(Undo(root, t, b), q) == At(if Undoes(root, b) && b.gpath <= q then t0 else t, q)
  {
    if b.held.Snapshot? {
      WriteValueAt(t, b.gpath, b.held.cells, q);
    }
  }

  /** The entries above a target are there during the whole rollback. */
  lemma AnchoredDuring(root: Entry, t0: Tree, st: St, k: nat, u: Tree)
    requires k < |st.log| && Tracks(root, t0, st.tree, st.log) && TargetsApart(t0, st.log)
    requires forall q :: At(u, q) == At(t0, q) || At(u, q) == At(st.tree, q)
    ensures Anchored(u, st.log[k].gpath)
  {
    var p := st.log[k].gpath;
    assert Anchored(t0, p);
    forall c | c in st.log
      ensures !Related(c.gpath, p) || c.gpath == p
    {
      var i :| 0 <= i < |st.log| && st.log[i] == c;
      assert i == k || !Related(st.log[if i < k then i else k].gpath, st.log[if i < k then k else i].gpath);
    }
    forall i | 0 <= i < |p| - 1
      ensures EntryThere(u, p, i)
    {
      assert EntryThere(t0, p, i);
      NotCoveredAbove(root, st.log, p, p[..i + 1]);
      assert At(u, p[..i + 1]) == At(t0, p[..i + 1]);
    }
  }

  ghost predicate PutBack(root: Entry, t0: Tree, t: Tree, log: seq<Backup>, u: Tree) {
    forall q :: At(u, q) == At(if Undone(root, log, q) then t0 else t, q)
  }

  /** After k entries, the log walked forwards, exactly what these entries undo is as it was in t0. */
  lemma {:induction false} UndoPrefix(root: Entry, t0: Tree, st: St, k: nat)
    requires k <= |st.log| && LogRight(root, t0, st) && TargetsApart(t0, st.log)
    ensures PutBack(root, t0, st.tree, st.log[..k], UndoAll(root, st.tree, st.log[..k]))
  {
    hide *;
    if k == 0 {
      NothingPutBack(root, t0, st.tree);
    } else {
      UndoPrefix(root, t0, st, k - 1);
      var front, b := st.log[..k - 1], st.log[k - 1];
      var u := UndoAll(root, st.tree, front);
      assert st.log[..k] == front + [b];
      UndoSnoc(root, st.tree, front, b);
      PutBackEither(root, t0, st.tree, front, u);
      LogRightParts(root, t0, st, b);
      AnchoredDuring(root, t0, st, k - 1, u);
      UndoPutsBack(root, t0, st.tree, front, u, b);
    }
  }

  lemma NothingPutBack(root: Entry, t0: Tree, t: Tree)
    ensures PutBack(root, t0, t, [], UndoAll(root, t, []))
  {
  }

  lemma UndoSnoc(root: Entry, t: Tree, log: seq<Backup>, b: Backup)
    ensures UndoAll(root, t, log + [b]) == Undo(root, UndoAll(root, t, log), b)
  {
    assert Init(log + [b]) == log;
  }

  lemma PutBackEither(root: Entry, t0: Tree, t: Tree, log: seq<Backup>, u: Tree)
    requires PutBack(root, t0, t, log, u)
    ensures forall q :: At(u, q) == At(t0, q) || At(u, q) == At(t, q)
  {
  }

  lemma LogRightParts(root: Entry, t0: Tree, st: St, b: Backup)
    requires LogRight(root, t0, st) && b in st.log
    ensures Tracks(root, t0, st.tree, st.log) && HoldsOld(t0, b)
  {
  }

  lemma UndoPutsBack(root: Entry, t0: Tree, t: Tree, log: seq<Backup>, u: Tree, b: Backup)
    requires PutBack(root, t0, t, log, u) && Anchored(u, b.gpath) && HoldsOld(t0, b)
    ensures PutBack(root, t0, t, log + [b], Undo(root, u, b))
  {
    hide Anchored, HoldsOld, Undo, Undoes;
    forall q
      ensures At(Undo(root, u, b), q) == At(if Undone(root, log + [b], q) then t0 else t, q)
    {
      UndoAt(root, t0, u, b, q);
      UndoneMore(root, log, b, q);
    }
  }

  lemma UnrelatedAny(log: seq<Backup>, b: Backup, c: Backup)
    requires Unrelated(log) && b in log && c in log && b != c
    ensures !Related(b.gpath, c.gpath)
  {
    var i :| 0 <= i < |log| && log[i] == b;
    var j :| 0 <= j < |log| && log[j] == c;
    assert !Related(log[if i < j then i else j].gpath, log[if i < j then j else i].gpath);
  }

  /** A node below a target that sticks is put back by no other entry. */
  lemma NotUndoneBelow(root: Entry, log: seq<Backup>, b: Backup, q: Path)
    requires Unrelated(log) && b in log && Sticks(root, b) && b.gpath <= q
    ensures !Undone(root, log, q)
  {
    if Undone(root, log, q) {
      var c :| c in log && Undoes(root, c) && c.gpath <= q;
      UnrelatedAny(log, b, c);
      SameNodeRelated(b.gpath, c.gpath, q);
    }
  }

  /** No target that sticks was changed. */
  ghost predicate StickingUnchanged(root: Entry, t0: Tree, st: St) {
    forall b :: b in st.log && Sticks(root, b) ==> SameBelow(st.tree, t0, b.gpath)
  }

  /** Walking the log forwards gives back the tree at the start exactly when no entry that sticks changed anything. */
  lemma UndoAllExact(root: Entry, t0: Tree, st: St)
    requires LogRight(root, t0, st) && TargetsApart(t0, st.log)
    ensures UndoAll(root, st.tree, st.log) == t0 <==> StickingUnchanged(root, t0, st)
  {
    UndoPrefix(root, t0, st, |st.log|);
    assert st.log[..|st.log|] == st.log;
    var u := UndoAll(root, st.tree, st.log);
    if u == t0 {
      forall b, q | b in st.log && Sticks(root, b) && b.gpath <= q
        ensures At(st.tree, q) == At(t0, q)
      {
        NotUndoneBelow(root, st.log, b, q);
      }
    }
    if StickingUnchanged(root, t0, st) {
      forall q
        ensures At(u, q) == At(t0, q)
      {
        if !Undone(root, st.log, q) && Covered(root, st.log, q) {
          var b :| b in st.log && Touches(root, b) && b.gpath <= q;
          assert Sticks(root, b);
        }
      }
      SameMap(u, t0);
    }
  }

  /** The operations of a request, run from t0 on up to the first that fails, on targets that are apart. */
  ghost predicate WellRun(root: Entry, t0: Tree, ops: seq<Op>, st: St) {
    && (forall op :: op in ops ==> WellFormed(op))
    && AlwaysFoundAll(root, St(t0, [], false), ops)
    && st == RunOps(root, St(t0, [], false), ops)
    && TargetsApart(t0, st.log)
  }

  /** Rolling a request back restores the tree that it started with, whichever operation failed, exactly when
      no target that sticks was changed; and what SetDone does with an external store is the same. */
  lemma RollbackSticking(root: Entry, t0: Tree, ops: seq<Op>, st: St)
    requires WellRun(root, t0, ops, st)
    ensures UndoAll(root, st.tree, st.log) == t0 <==> StickingUnchanged(root, t0, st)
  {
    RunKeepsLog(root, t0, ops);
    UndoAllExact(root, t0, st);
  }

  /** Deletes and replaces of any node, and updates of leaves, are always rolled back. */
  lemma RollbackRestores(root: Entry, t0: Tree, ops: seq<Op>, st: St)
    requires WellRun(root, t0, ops, st)
    requires forall b :: b in st.log ==> !Sticks(root, b)
    ensures UndoAll(root, st.tree, st.log) == t0
  {
    RollbackSticking(root, t0, ops, st);
  }

  /** What undoing puts at the target and below. */
  function HeldCells(b: Backup): Tree {
    if b.held.Snapshot? then b.held.cells else map[]
  }

  lemma AnchoredAfterUndo(root: Entry, t: Tree, a: Backup, p: Path)
    requires Anchored(t, a.gpath) && Anchored(t, p) && !Related(a.gpath, p)
    ensures Anchored(Undo(root, t, a), p)
  {
    forall i | 0 <= i < |p| - 1
      ensures EntryThere(Undo(root, t, a), p, i)
    {
      assert EntryThere(t, p, i);
      UndoAt(root, HeldCells(a), t, a, p[..i + 1]);
    }
  }

  ghost predicate BothUndoable(t: Tree, a: Backup, b: Backup) {
    Anchored(t, a.gpath) && Anchored(t, b.gpath) && !Related(a.gpath, b.gpath)
  }

  /** Undoing unrelated entries commutes, so walking the log forwards is as good as walking it backwards. */
  lemma UndoCommutes(root: Entry, t: Tree, a: Backup, b: Backup)
    requires BothUndoable(t, a, b)
    ensures UndoAll(root, t, [a, b]) == UndoAll(root, t, [b, a])
  {
    hide *;
    UndoBoth(root, t, a, b);
    UndoBoth(root, t, b, a);
    UndoSwaps(root, t, a, b);
  }

  lemma UndoBoth(root: Entry, t: Tree, a: Backup, b: Backup)
    ensures UndoAll(root, t, [a, b]) == Undo(root, Undo(root, t, a), b)
  {
    hide *;
    UndoSnoc(root, t, [], a);
    UndoSnoc(root, t, [a], b);
    assert [] + [a] == [a] && [a] + [b] == [a, b];
    UndoNone(root, t);
  }

  lemma UndoNone(root: Entry, t: Tree)
    ensures UndoAll(root, t, []) == t
  {
  }

  lemma UndoSwaps(root: Entry, t: Tree, a: Backup, b: Backup)
    requires BothUndoable(t, a, b)
    ensures Undo(root, Undo(root, t, a), b) == Undo(root, Undo(root, t, b), a)
  {
    AnchoredAfterUndo(root, t, a, b.gpath);
    AnchoredAfterUndo(root, t, b, a.gpath);
    var ab, ba := Undo(root, Undo(root, t, a), b), Undo(root, Undo(root, t, b), a);
    hide Undo, Anchored;
    forall q
      ensures At(ab, q) == At(ba, q)
    {
      UndoAt(root, HeldCells(a), t, a, q);
      UndoAt(root, HeldCells(b), Undo(root, t, a), b, q);
      UndoAt(root, HeldCells(b), t, b, q);
      UndoAt(root, HeldCells(a), Undo(root, t, b), a, q);
      if a.gpath <= q && b.gpath <= q {
        SameNodeRelated(a.gpath, b.gpath, q);
      }
    }
    SameMap(ab, ba);
  }

  // ---------------------------------------------------------------- when it is not restored

  lemma {:induction false} CreateGrows(t: Tree, p: Path)
    ensures t.Keys <= Create(t, p).Keys
  {
    if p != [] {
      CreateGrows(t, Init(p));
    }
  }

  /** Creating p does nothing exactly when all list entries on the way, and p's own, exist. */
  lemma {:induction false} CreateNothingExact(t: Tree, p: Path)
    ensures Create(t, p) == t <==> forall i :: 0 <= i < |p| ==> EntryThere(t, p, i)
  {
    if forall i :: 0 <= i < |p| ==> EntryThere(t, p, i) {
      CreateNothing(t, p);
    }
    if p != [] && Create(t, p) == t {
      CreateGrows(t, Init(p));
      EntriesOfPrefix(t, p, |p| - 1);
      CreateNothingExact(t, Init(p));
      assert p[..|p|] == p;
      assert EntryThere(t, p, |p| - 1);
    }
  }

  /** An operation that creates the missing target x, and what is left of it after the rollback. */
  function Leftover(root: Entry, optype: OpType, t0: Tree, x: Target, pushed: bool): Tree {
    var st := RunOps(root, St(t0, [], false), [Op(optype, x, [], [], pushed)]);
    UndoAll(root, st.tree, st.log)
  }

  /** The list entries that the target needs exist, but for its own. */
  predicate EntriesNeeded(root: Entry, t: Tree, p: Path) {
    forall i :: 0 <= i < Reach(root, p) && i < |p| - 1 ==> EntryThere(t, p, i)
  }

  lemma LeftoverIs(root: Entry, optype: OpType, t0: Tree, x: Target, pushed: bool)
    requires optype != DELETE && !x.readOnly
    ensures Leftover(root, optype, t0, x, pushed) == DeleteValue(root, WriteTyped(root, t0, x.path, x.value), x.path)
  {
    var op := Op(optype, x, [], [], pushed);
    var st := One(root, optype, St(t0, [], false), x, Nil, pushed);
    var b := Backup(optype, x.path, Nil, st.log[0].executed);
    assert st.tree == WriteTyped(root, t0, x.path, x.value) && st.log == [] + [b];
    hide *;
    LeftoverRun(root, optype, t0, x, pushed);
    UndoSnoc(root, st.tree, [], b);
    UndoNone(root, st.tree);
    UndoMissing(root, st.tree, b);
  }

  lemma LeftoverRun(root: Entry, optype: OpType, t0: Tree, x: Target, pushed: bool)
    requires optype != DELETE
    ensures var st := One(root, optype, St(t0, [], false), x, Nil, pushed);
            Leftover(root, optype, t0, x, pushed) == UndoAll(root, st.tree, st.log)
  {
    hide One, UndoAll, RunTargets;
    var op := Op(optype, x, [], [], pushed);
    assert Init([op]) == [] && Last([op]) == op;
    OpIs(root, St(t0, [], false), op);
    RunsNothing(root, St(t0, [], false));
  }

  lemma RunsNothing(root: Entry, st: St)
    ensures RunOps(root, st, []) == st
  {
  }

  lemma UndoMissing(root: Entry, t: Tree, b: Backup)
    requires b.held.Nil?
    ensures Undo(root, t, b) == DeleteValue(root, t, b.gpath)
  {
  }

  lemma {:induction false} CreateMakesEntries(t: Tree, p: Path, i: nat)
    requires i < |p|
    ensures EntryThere(Create(t, p), p, i)
  {
    assert p[..|p|] == p;
    if i < |p| - 1 {
      CreateMakesEntries(t, Init(p), i);
      assert Init(p)[..i + 1] == p[..i + 1];
    }
  }

  lemma DeleteWritten(t: Tree, p: Path, cells: Tree)
    requires p != []
    ensures Delete(Create(t, p) + Sub(cells, p), p) == Delete(Create(t, Init(p)), p)
  {
    hide Create, Sub, Delete;
    var w, u := Create(t, p) + Sub(cells, p), Create(t, Init(p));
    CreateOutside(t, p, cells);
    forall q
      ensures At(Delete(w, p), q) == At(Delete(u, p), q)
    {
      DeleteAt(w, p, q);
      DeleteAt(u, p, q);
    }
    SameMap(Delete(w, p), Delete(u, p));
  }

  lemma CreateOutside(t: Tree, p: Path, cells: Tree)
    requires p != []
    ensures forall q :: !(p <= q) ==> At(Create(t, p) + Sub(cells, p), q) == At(Create(t, Init(p)), q)
  {
    NewEntryBelow(p);
  }

  lemma DeleteNothing(t: Tree, p: Path)
    requires NothingBelow(t, p)
    ensures Delete(t, p) == t
  {
    forall q
      ensures At(Delete(t, p), q) == At(t, q)
    {
    }
    SameMap(Delete(t, p), t);
  }

  lemma RootOver(t: Tree, cells: Tree)
    requires NothingBelow(t, [])
    ensures Create(t, []) + Sub(cells, []) == t <==> Sub(cells, []) == map[]
  {
    if t + Sub(cells, []) == t {
      forall q
        ensures q !in Sub(cells, [])
      {
        assert At(t, q) == None;
      }
    }
  }

  lemma CreateThenDelete(t: Tree, p: Path, cells: Tree)
    requires p != [] && NothingBelow(t, p)
    ensures Delete(Create(t, p) + Sub(cells, p), p) == t <==> Anchored(t, p)
  {
    hide Delete, Create, Sub, NothingBelow, EntryThere;
    DeleteWritten(t, p, cells);
    DeleteNothing(t, p);
    var u := Create(t, Init(p));
    EntriesOfPrefix(t, p, |p| - 1);
    if Anchored(t, p) {
      CreateNothing(t, Init(p));
    }
    if Delete(u, p) == t {
      forall i | 0 <= i < |p| - 1
        ensures EntryThere(t, p, i)
      {
        CreateMakesEntries(t, Init(p), i);
        assert Init(p)[..i + 1] == p[..i + 1];
        EntryKept(t, u, p, i);
      }
    }
  }

  /** Deleting p takes none of the list entries above it away. */
  lemma EntryKept(t: Tree, u: Tree, p: Path, i: nat)
    requires i < |p| - 1 && EntryThere(u, Init(p), i) && Delete(u, p) == t
    ensures EntryThere(t, p, i)
  {
    assert Init(p)[..i + 1] == p[..i + 1];
  }

  lemma CreateThenKeep(t: Tree, p: Path, cells: Tree)
    requires p != [] && NothingBelow(t, p)
    ensures Create(t, p) + Sub(cells, p) == t
            <==> Anchored(t, p) && Last(p).keys == map[] && Sub(cells, p) == map[]
  {
    var w := Create(t, p) + Sub(cells, p);
    assert At(t, p) == None && p[..|p|] == p;
    CreateNothingExact(t, p);
    if w == t {
      forall q
        ensures q !in Sub(cells, p)
      {
        if p <= q {
          assert At(t, q) == None;
        }
      }
      assert EntryThere(t, p, |p| - 1);
    }
  }

  /** Rolling back a missing target takes away what it created below its path only, and not even that
      when its name occurs in the key text of the parent: the missing list entries above it stay. */
  lemma MissingTargetExact(root: Entry, optype: OpType, t0: Tree, x: Target, pushed: bool)
    requires optype != DELETE && !x.readOnly && NothingBelow(t0, x.path)
    ensures Leftover(root, optype, t0, x, pushed) == t0
            <==> (&& EntriesNeeded(root, t0, x.path)
                  && (Refuses(root, x.path) ==>
                        (x.path == [] || Last(x.path).keys == map[]) && Sub(x.value.cells, x.path) == map[]))
  {
    LeftoverIs(root, optype, t0, x, pushed);
    var p, n := x.path, Reach(root, x.path);
    hide NothingBelow, EntryThere, Create, Contains;
    if n < |p| {
      CreateNothingExact(t0, p[..n]);
      EntriesOfPrefix(t0, p, n);
    } else if p == [] {
      RootOver(t0, x.value.cells);
    } else {
      CreateThenDelete(t0, p, x.value.cells);
      CreateThenKeep(t0, p, x.value.cells);
    }
  }

  /** Two updates of the same leaf are undone oldest first: what the rollback leaves is the tree after the first one. */
  lemma TwiceUpdated(root: Entry, t0: Tree, x: Target, y: Target, pushed: bool)
    requires x.path == y.path && Anchored(t0, x.path) && IsLeaf(t0, x.path)
    requires x.parsed && y.parsed && !x.readOnly && !y.readOnly && WriteOk(root, x.path, x.value)
    requires IsLeaf(WriteTyped(root, t0, x.path, x.value), x.path)
    ensures var first, second := Op(UPDATE, x, [x], [true], true), Op(UPDATE, y, [y], [pushed], true);
            var st := RunOps(root, St(t0, [], false), [first, second]);
            UndoAll(root, st.tree, st.log) == WriteTyped(root, t0, x.path, x.value)
  {
    var p := x.path;
    var first, second := Op(UPDATE, x, [x], [true], true), Op(UPDATE, y, [y], [pushed], true);
    var t1 := WriteTyped(root, t0, p, x.value);
    var t2 := WriteTyped(root, t1, p, y.value);
    var b1 := Backup(UPDATE, p, Snapshot(Sub(t0, p)), true);
    var b2 := Backup(UPDATE, p, Snapshot(Sub(t1, p)), WriteOk(root, p, y.value) && pushed);
    OneTarget(root, UPDATE, St(t0, [], false), x, true);
    OneTarget(root, UPDATE, St(t1, [b1], false), y, pushed);
    TwoOps(root, St(t0, [], false), first, second);
    var log := [b1, b2];
    assert [b1] + [b2] == log && [] + [b1] == [b1];
    var u1 := Undo(root, t2, b1);
    assert Init(log) == [b1] && Init([b1]) == [] && UndoAll(root, t2, []) == t2;
    assert UndoAll(root, t2, [b1]) == u1;
    UndoneTwice(root, t0, t1, t2, x, y);
  }

  lemma OneTarget(root: Entry, optype: OpType, st: St, x: Target, pushed: bool)
    ensures RunTargets(root, optype, st.tree, st, [x], [pushed])
            == if st.failed then st else One(root, optype, st, x, Hold(optype, st.tree, x), pushed)
  {
    assert Init([x]) == [] && Init([pushed]) == [];
  }

  lemma TwoOps(root: Entry, st: St, first: Op, second: Op)
    requires WellFormed(first) && WellFormed(second) && !st.failed && !RunOp(root, st, first).failed
    ensures RunOps(root, st, [first, second]) == RunOp(root, RunOp(root, st, first), second)
  {
    assert Init([first, second]) == [first] && Init([first]) == [];
    assert RunOps(root, st, []) == st;
    assert RunOps(root, st, [first]) == RunOp(root, st, first);
  }

  lemma UndoneTwice(root: Entry, t0: Tree, t1: Tree, t2: Tree, x: Target, y: Target)
    requires x.path == y.path && Anchored(t0, x.path)
    requires t1 == WriteTyped(root, t0, x.path, x.value) && t2 == WriteTyped(root, t1, x.path, y.value)
    ensures WriteValue(WriteValue(t2, x.path, Sub(t0, x.path)), x.path, Sub(t1, x.path)) == t1
  {
    var p := x.path;
    WriteTypedAnchored(root, t0, p, x.value);
    AnchoredSame(t0, t1, p);
    WriteTypedAnchored(root, t1, p, y.value);
    AnchoredSame(t1, t2, p);
    var u1 := WriteValue(t2, p, Sub(t0, p));
    var u2 := WriteValue(u1, p, Sub(t1, p));
    forall q
      ensures At(u1, q) == At(if p <= q then t0 else t2, q)
    {
      WriteValueAt(t2, p, Sub(t0, p), q);
    }
    AnchoredSame(t2, u1, p);
    hide WriteTyped, WriteValue;
    forall q
      ensures At(u2, q) == At(t1, q)
    {
      WriteValueAt(u1, p, Sub(t1, p), q);
    }
    SameMap(u2, t1);
  }

  lemma AnchoredSame(t: Tree, u: Tree, p: Path)
    requires Anchored(t, p) && forall q :: !(p <= q) ==> At(u, q) == At(t, q)
    ensures Anchored(u, p)
  {
    forall i | 0 <= i < |p| - 1
      ensures EntryThere(u, p, i)
    {
      assert EntryThere(t, p, i) && At(u, p[..i + 1]) == At(t, p[..i + 1]);
    }
  }
}
