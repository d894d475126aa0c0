/** What rolling a Set request back yields (SetRollback in gnmi/model/set.go): exactly when it is the tree at the start,
    stated on the values of the request, and what it is when targets lie below each other. */
module Rollback {
  import opened Text
  import opened PathText
  import opened Schema
  import opened DataTree
  import opened Transaction

  // ---------------------------------------------------------------- targets apart: the values decide

  /** The target of an entry of the log, which had base entries when the operation began. */
  function TargetAt(op: Op, base: nat, i: nat): Target {
    if base <= i < base + |op.targets| then op.targets[i - base] else op.full
  }

  /** The target that the i-th entry of the log of a request was made for. */
  function TargetOf(root: Entry, t0: Tree, ops: seq<Op>, i: nat): Target
    requires ops != [] && forall op :: op in ops ==> WellFormed(op)
  {
    var base := |RunOps(root, St(t0, [], false), Init(ops)).log|;
    if i < base && |ops| > 1 then TargetOf(root, t0, Init(ops), i) else TargetAt(Last(ops), base, i)
  }

  /** DeleteNode failed, so that nothing was written; or the target is outside the schema; or its own list entry and
      all the decoded cells are in the tree already. */
  predicate WritesNothingNew(root: Entry, b: Backup, t: Tree, x: Target) {
    || (b.held.Live? && b.optype != UPDATE && !x.deletable)
    || Reach(root, x.path) < |x.path|
    || (&& (x.path == [] || EntryThere(t, x.path, |x.path| - 1))
        && forall q :: q in x.value.cells && x.path <= q ==> At(t, q) == Some(x.value.cells[q]))
  }

  lemma WriteChangesNothing(root: Entry, t: Tree, b: Backup, x: Target)
    requires Anchored(t, x.path) && !b.held.Snapshot? && (b.held.Live? ==> !Detaches(b.optype, x))
    ensures SameBelow(Written(root, b.optype, t, x, b.held), t, x.path) <==> WritesNothingNew(root, b, t, x)
  {
    var p := x.path;
    hide *;
    WrittenStuck(root, t, b, x);
    if b.held.Live? && b.optype != UPDATE && !x.deletable {
      SameBelowItself(t, p);
    } else {
      WriteTypedIs(root, t, p, x.value);
      if Reach(root, p) < |p| {
        CreatePrefixAnchored(t, p, Reach(root, p));
        SameBelowItself(t, p);
      } else {
        CreateBelow(t, p);
        EntryAndCells(t, Create(t, p), p, x.value.cells);
      }
    }
    NothingNewIs(root, b, t, x);
  }

  lemma WrittenStuck(root: Entry, t: Tree, b: Backup, x: Target)
    requires !b.held.Snapshot? && (b.held.Live? ==> !Detaches(b.optype, x))
    ensures Written(root, b.optype, t, x, b.held)
            == if b.held.Live? && b.optype != UPDATE && !x.deletable then t else WriteTyped(root, t, x.path, x.value)
  {
  }

  lemma WriteTypedIs(root: Entry, t: Tree, p: Path, d: Decoded)
    ensures WriteTyped(root, t, p, d)
            == if Reach(root, p) < |p| then Create(t, p[..Reach(root, p)]) else Create(t, p) + Sub(d.cells, p)
  {
  }

  lemma SameBelowItself(t: Tree, p: Path)
    ensures SameBelow(t, t, p)
  {
  }

  lemma NothingNewIs(root: Entry, b: Backup, t: Tree, x: Target)
    ensures WritesNothingNew(root, b, t, x)
            <==> (|| (b.held.Live? && b.optype != UPDATE && !x.deletable)
                  || Reach(root, x.path) < |x.path|
                  || (&& (x.path == [] || EntryThere(t, x.path, |x.path| - 1))
                      && forall q :: q in x.value.cells && x.path <= q ==> At(t, q) == Some(x.value.cells[q])))
  {
  }

  lemma CreateBelow(t: Tree, p: Path)
    requires Anchored(t, p)
    ensures SameBelow(Create(t, p), WithEntry(t, p), p)
  {
    forall q | p <= q
      ensures At(Create(t, p), q) == At(WithEntry(t, p), q)
    {
      CreateIs(t, p, q);
    }
  }

  lemma EntryAndCells(t: Tree, u: Tree, p: Path, cells: Tree)
    requires SameBelow(u, WithEntry(t, p), p)
    ensures SameBelow(u + Sub(cells, p), t, p)
            <==> (&& (p == [] || EntryThere(t, p, |p| - 1))
                  && forall q :: q in cells && p <= q ==> At(t, q) == Some(cells[q]))
  {
    var w := u + Sub(cells, p);
    assert p[..|p|] == p;
    assert At(u, p) == At(WithEntry(t, p), p);
    if SameBelow(w, t, p) {
      assert At(w, p) == At(t, p);
      forall q | q in cells && p <= q
        ensures At(t, q) == Some(cells[q])
      {
        assert At(w, q) == At(t, q);
      }
    }
  }

  lemma WriteTypedBelow(root: Entry, t: Tree, u: Tree, p: Path, d: Decoded)
    requires Anchored(t, p) && Anchored(u, p) && SameBelow(t, u, p)
    ensures SameBelow(WriteTyped(root, t, p, d), WriteTyped(root, u, p, d), p)
  {
    if Reach(root, p) < |p| {
      CreatePrefixAnchored(t, p, Reach(root, p));
      CreatePrefixAnchored(u, p, Reach(root, p));
    } else {
      CreateBelow(t, p);
      CreateBelow(u, p);
      EntriesBelow(t, u, p);
      hide Create, Reach, Anchored, WithEntry;
      SameOver(Create(t, p), Create(u, p), Sub(d.cells, p), p);
    }
  }

  lemma SameOver(t: Tree, u: Tree, cells: Tree, p: Path)
    requires SameBelow(t, u, p)
    ensures SameBelow(t + cells, u + cells, p)
  {
    forall q | p <= q
      ensures At(t + cells, q) == At(u + cells, q)
    {
      assert At(t, q) == At(u, q);
    }
  }

  lemma EntriesBelow(t: Tree, u: Tree, p: Path)
    requires SameBelow(t, u, p)
    ensures SameBelow(WithEntry(t, p), WithEntry(u, p), p)
  {
    assert At(t, p) == At(u, p);
    forall q | p <= q
      ensures At(WithEntry(t, p), q) == At(WithEntry(u, p), q)
    {
      assert At(t, q) == At(u, q);
    }
  }

  /** A target that sticks shows what was written to it. */
  ghost predicate Bears(root: Entry, t0: Tree, t: Tree, b: Backup, x: Target) {
    && b.gpath == x.path && (b.held.Live? ==> !Detaches(b.optype, x))
    && (Sticks(root, b) ==> SameBelow(t, Written(root, b.optype, t0, x, b.held), x.path))
  }

  ghost predicate AllBear(root: Entry, t0: Tree, st: St, xs: seq<Target>) {
    |xs| == |st.log| && forall i :: 0 <= i < |xs| ==> Bears(root, t0, st.tree, st.log[i], xs[i])
  }

  /** One more target leaves those before it as they are, and shows what is written to it. */
  lemma OneShows(root: Entry, t0: Tree, optype: OpType, st: St, xs: seq<Target>, x: Target, held: Held, pushed: bool)
    returns (ys: seq<Target>)
    requires Tracks(root, t0, st.tree, st.log) && AllBear(root, t0, st, xs)
    requires TargetsApart(t0, One(root, optype, st, x, held, pushed).log)
    requires held.Live? ==> !Detaches(optype, x)
    ensures AllBear(root, t0, One(root, optype, st, x, held, pushed), ys)
    ensures ys == xs + [x] || (ys == xs && One(root, optype, st, x, held, pushed).failed)
  {
    hide *;
    OneLogs(root, optype, st, x, held, pushed);
    var after := One(root, optype, st, x, held, pushed);
    if after.log == st.log {
      ys := xs;
      SameShow(root, t0, st, after, xs);
    } else {
      ys := xs + [x];
      LastApart(t0, st.log, Last(after.log));
      AnchoredThrough(root, t0, st.tree, st.log, x.path);
      WrittenOutside(root, optype, st.tree, x, held);
      WrittenShows(root, t0, optype, st, x, held, Last(after.log));
      ShowMore(root, t0, st, after, xs, x);
    }
  }

  lemma OneLogs(root: Entry, optype: OpType, st: St, x: Target, held: Held, pushed: bool)
    ensures var after := One(root, optype, st, x, held, pushed);
            if after.log == st.log then after.failed && after.tree == st.tree
            else
              && after.log == st.log + [Last(after.log)] && after.tree == Written(root, optype, st.tree, x, held)
              && Last(after.log).gpath == x.path && Last(after.log).held == held && Last(after.log).optype == optype
  {
    var after := One(root, optype, st, x, held, pushed);
    assert after.log == st.log || |after.log| == |st.log| + 1;
  }

  lemma SameShow(root: Entry, t0: Tree, st: St, after: St, xs: seq<Target>)
    requires AllBear(root, t0, st, xs) && after.log == st.log && after.tree == st.tree
    ensures AllBear(root, t0, after, xs)
  {
  }

  lemma LastApart(t0: Tree, log: seq<Backup>, b: Backup)
    requires TargetsApart(t0, log + [b])
    ensures Anchored(t0, b.gpath) && forall c :: c in log ==> !Related(c.gpath, b.gpath)
  {
    UnrelatedLast(log, b);
    assert b in log + [b];
  }

  lemma WrittenShows(root: Entry, t0: Tree, optype: OpType, st: St, x: Target, held: Held, b: Backup)
    requires Tracks(root, t0, st.tree, st.log) && Anchored(t0, x.path) && Anchored(st.tree, x.path)
    requires forall c :: c in st.log ==> !Related(c.gpath, x.path)
    requires b.gpath == x.path && b.held == held && b.optype == optype && (held.Live? ==> !Detaches(optype, x))
    ensures Bears(root, t0, Written(root, optype, st.tree, x, held), b, x)
  {
    forall q | x.path <= q
      ensures At(st.tree, q) == At(t0, q)
    {
      NotCovered(root, st.log, x.path, q);
    }
    WrittenBelow(root, optype, st.tree, t0, x, held);
  }

  /** What is written at the target depends on nothing but what is there. */
  lemma WrittenBelow(root: Entry, optype: OpType, t: Tree, u: Tree, x: Target, held: Held)
    requires Anchored(t, x.path) && Anchored(u, x.path) && SameBelow(t, u, x.path)
    ensures SameBelow(Written(root, optype, t, x, held), Written(root, optype, u, x, held), x.path)
  {
    hide WriteTyped, Anchored;
    WriteTypedBelow(root, t, u, x.path, x.value);
    DeleteAnchored(t, x.path);
    DeleteAnchored(u, x.path);
    WriteTypedBelow(root, Delete(t, x.path), Delete(u, x.path), x.path, x.value);
  }

  lemma ShowMore(root: Entry, t0: Tree, st: St, after: St, xs: seq<Target>, x: Target)
    requires AllBear(root, t0, st, xs) && |after.log| == |st.log| + 1 && after.log[..|st.log|] == st.log
    requires forall c :: c in st.log ==> !Related(c.gpath, x.path)
    requires forall q :: !(x.path <= q) ==> At(after.tree, q) == At(st.tree, q)
    requires Bears(root, t0, after.tree, Last(after.log), x)
    ensures AllBear(root, t0, after, xs + [x])
  {
    hide Sticks, Written;
    forall i | 0 <= i < |xs|
      ensures Bears(root, t0, after.tree, after.log[i], xs[i])
    {
      assert after.log[i] == st.log[i] && Bears(root, t0, st.tree, st.log[i], xs[i]);
      forall q | xs[i].path <= q
        ensures At(after.tree, q) == At(st.tree, q)
      {
        if x.path <= q {
          SameNodeRelated(xs[i].path, x.path, q);
        }
      }
    }
  }

  lemma {:induction false} TargetsShow(root: Entry, t0: Tree, optype: OpType, st: St, xs: seq<Target>, targets: seq<Target>,
      pushed: seq<bool>)
    returns (ys: seq<Target>)
    requires |pushed| == |targets| && LogRight(root, t0, st) && AllBear(root, t0, st, xs)
    requires TargetsApart(t0, RunTargets(root, optype, st.tree, st, targets, pushed).log)
    ensures AllBear(root, t0, RunTargets(root, optype, st.tree, st, targets, pushed), ys)
    ensures xs <= ys && ys[|xs|..] <= targets
    ensures !RunTargets(root, optype, st.tree, st, targets, pushed).failed ==> ys == xs + targets
  {
    if targets == [] {
      ys := xs;
      return;
    }
    var before := RunTargets(root, optype, st.tree, st, Init(targets), Init(pushed));
    var after := RunTargets(root, optype, st.tree, st, targets, pushed);
    RunTargetsLast(root, optype, st, targets, pushed);
    var held := Hold(optype, st.tree, Last(targets));
    assert held.Live? ==> !Detaches(optype, Last(targets));
    hide *;
    BeforeApart(root, t0, optype, st, before, after, Last(targets), held, Last(pushed));
    ys := TargetsShow(root, t0, optype, st, xs, Init(targets), Init(pushed));
    TargetsKeepLog(root, t0, optype, st, Init(targets), Init(pushed));
    RightTracks(root, t0, before);
    if before.failed {
      InitPrefix(targets, ys[|xs|..]);
    } else {
      ys := OneShows(root, t0, optype, before, ys, Last(targets), held, Last(pushed));
      TakenOne(xs, targets, ys);
    }
  }

  lemma RunTargetsLast(root: Entry, optype: OpType, st: St, targets: seq<Target>, pushed: seq<bool>)
    requires |pushed| == |targets| && targets != []
    ensures var before := RunTargets(root, optype, st.tree, st, Init(targets), Init(pushed));
            RunTargets(root, optype, st.tree, st, targets, pushed)
            == if before.failed then before
               else One(root, optype, before, Last(targets), Hold(optype, st.tree, Last(targets)), Last(pushed))
  {
  }

  lemma BeforeApart(root: Entry, t0: Tree, optype: OpType, st: St, before: St, after: St, x: Target, held: Held, pushed: bool)
    requires TargetsApart(t0, after.log)
    requires after == if before.failed then before else One(root, optype, before, x, held, pushed)
    ensures TargetsApart(t0, before.log)
  {
    TargetsApartPrefix(t0, before.log, after.log);
  }

  lemma RightTracks(root: Entry, t0: Tree, st: St)
    requires LogRight(root, t0, st)
    ensures Tracks(root, t0, st.tree, st.log)
  {
  }

  lemma InitPrefix(targets: seq<Target>, taken: seq<Target>)
    requires targets != [] && taken <= Init(targets)
    ensures taken <= targets
  {
  }

  lemma TakenOne(xs: seq<Target>, targets: seq<Target>, ys: seq<Target>)
    requires targets != [] && (ys == xs + Init(targets) || ys == xs + Init(targets) + [Last(targets)])
    ensures xs <= ys && ys[|xs|..] <= targets
    ensures ys == xs + Init(targets) + [Last(targets)] ==> ys == xs + targets
  {
    assert xs + Init(targets) + [Last(targets)] == xs + targets;
  }

  lemma OpShows(root: Entry, t0: Tree, st: St, xs: seq<Target>, op: Op) returns (ys: seq<Target>)
    requires WellFormed(op) && LogRight(root, t0, st) && AllBear(root, t0, st, xs)
    requires TargetsApart(t0, RunOp(root, st, op).log)
    ensures AllBear(root, t0, RunOp(root, st, op), ys)
    ensures xs <= ys && forall i :: |xs| <= i < |ys| ==> ys[i] == TargetAt(op, |xs|, i)
  {
    hide *;
    OpIs(root, st, op);
    if op.targets != [] {
      ys := TargetsShow(root, t0, op.optype, st, xs, op.targets, op.pushed);
      TakenAt(op, xs, ys);
    } else if op.optype != DELETE {
      RightTracks(root, t0, st);
      ys := OneShows(root, t0, op.optype, st, xs, op.full, Nil, op.pushedNew);
      NewAt(op, xs, ys);
    } else {
      ys := xs;
    }
  }

  lemma TakenAt(op: Op, xs: seq<Target>, ys: seq<Target>)
    requires xs <= ys && ys[|xs|..] <= op.targets
    ensures forall i :: |xs| <= i < |ys| ==> ys[i] == TargetAt(op, |xs|, i)
  {
    assert forall i :: |xs| <= i < |ys| ==> ys[i] == ys[|xs|..][i - |xs|];
  }

  lemma NewAt(op: Op, xs: seq<Target>, ys: seq<Target>)
    requires op.targets == [] && (ys == xs + [op.full] || ys == xs)
    ensures xs <= ys && forall i :: |xs| <= i < |ys| ==> ys[i] == TargetAt(op, |xs|, i)
  {
  }

  ghost predicate TargetsAre(root: Entry, t0: Tree, ops: seq<Op>, xs: seq<Target>)
    requires forall op :: op in ops ==> WellFormed(op)
  {
    if ops == [] then xs == [] else forall i :: 0 <= i < |xs| ==> xs[i] == TargetOf(root, t0, ops, i)
  }

  lemma {:induction false} RunShows(root: Entry, t0: Tree, ops: seq<Op>) returns (xs: seq<Target>)
    requires forall op :: op in ops ==> WellFormed(op)
    requires AlwaysFoundAll(root, St(t0, [], false), ops)
    requires TargetsApart(t0, RunOps(root, St(t0, [], false), ops).log)
    ensures AllBear(root, t0, RunOps(root, St(t0, [], false), ops), xs)
    ensures TargetsAre(root, t0, ops, xs)
  {
    if ops == [] {
      return [];
    }
    var start := St(t0, [], false);
    var before, after := RunOps(root, start, Init(ops)), RunOps(root, start, ops);
    assert after == if before.failed then before else RunOp(root, before, Last(ops));
    OpGrowsLog(root, before, Last(ops));
    TargetsApartPrefix(t0, before.log, after.log);
    xs := RunShows(root, t0, Init(ops));
    ghost var was := xs;
    if !before.failed {
      RunKeepsLog(root, t0, Init(ops));
      xs := OpShows(root, t0, before, was, Last(ops));
    }
    hide RunOps, AlwaysFoundAll, AllBear, LogRight, TargetsApart, RunOp;
    TargetsMore(root, t0, ops, was, xs);
  }

  lemma TargetsMore(root: Entry, t0: Tree, ops: seq<Op>, was: seq<Target>, xs: seq<Target>)
    requires ops != [] && forall op :: op in ops ==> WellFormed(op)
    requires TargetsAre(root, t0, Init(ops), was) && was <= xs
    requires |was| == |RunOps(root, St(t0, [], false), Init(ops)).log|
    requires forall i :: |was| <= i < |xs| ==> xs[i] == TargetAt(Last(ops), |was|, i)
    ensures TargetsAre(root, t0, ops, xs)
  {
    hide RunOps, TargetAt;
    forall i | 0 <= i < |xs|
      ensures xs[i] == TargetOf(root, t0, ops, i)
    {
      assert i < |was| ==> xs[i] == was[i];
    }
  }

  /** No target that sticks was given anything that was not there at the start. */
  ghost predicate StickingWroteNothing(root: Entry, t0: Tree, ops: seq<Op>, log: seq<Backup>)
    requires forall op :: op in ops ==> WellFormed(op)
  {
    forall i :: ops != [] && 0 <= i < |log| && Sticks(root, log[i]) ==> WritesNothingNew(root, log[i], t0, TargetOf(root, t0, ops, i))
  }

  /** An entry that sticks leaves its target as it was exactly when its value holds nothing new. */
  lemma StickingUnchangedAt(root: Entry, t0: Tree, ops: seq<Op>, st: St, xs: seq<Target>, i: nat)
    requires (forall op :: op in ops ==> WellFormed(op)) && TargetsApart(t0, st.log)
    requires AllBear(root, t0, st, xs) && TargetsAre(root, t0, ops, xs)
    requires i < |st.log| && Sticks(root, st.log[i])
    ensures ops != []
    ensures SameBelow(st.tree, t0, st.log[i].gpath) <==> WritesNothingNew(root, st.log[i], t0, TargetOf(root, t0, ops, i))
  {
    hide TargetOf, Written, WritesNothingNew;
    assert Bears(root, t0, st.tree, st.log[i], xs[i]) && Anchored(t0, xs[i].path);
    WriteChangesNothing(root, t0, st.log[i], xs[i]);
    SameBelowThrough(st.tree, Written(root, st.log[i].optype, t0, xs[i], st.log[i].held), t0, xs[i].path);
  }

  lemma SameBelowThrough(t: Tree, u: Tree, v: Tree, p: Path)
    requires SameBelow(t, u, p)
    ensures SameBelow(t, v, p) <==> SameBelow(u, v, p)
  {
    assert forall q :: p <= q ==> At(t, q) == At(u, q);
  }

  /** Rolling a request back restores the tree that it started with, whichever operation failed, exactly when
      each updated container, and each new node that DeleteValue skips, was given nothing that was not there. */
  lemma RollbackExact(root: Entry, t0: Tree, ops: seq<Op>, st: St)
    requires WellRun(root, t0, ops, st)
    ensures UndoAll(root, st.tree, st.log) == t0 <==> StickingWroteNothing(root, t0, ops, st.log)
  {
    hide *;
    RunParts(root, t0, ops, st);
    RollbackSticking(root, t0, ops, st);
    var xs := RunShows(root, t0, ops);
    forall i | 0 <= i < |st.log| && Sticks(root, st.log[i])
      ensures ops != [] && (SameBelow(st.tree, t0, st.log[i].gpath) <==> WritesNothingNew(root, st.log[i], t0, TargetOf(root, t0, ops, i)))
    {
      StickingUnchangedAt(root, t0, ops, st, xs, i);
    }
    EachSticking(root, t0, ops, st);
  }

  lemma RunParts(root: Entry, t0: Tree, ops: seq<Op>, st: St)
    requires WellRun(root, t0, ops, st)
    ensures (forall op :: op in ops ==> WellFormed(op)) && TargetsApart(t0, st.log)
    ensures AlwaysFoundAll(root, St(t0, [], false), ops) && st == RunOps(root, St(t0, [], false), ops)
  {
  }

  lemma EachSticking(root: Entry, t0: Tree, ops: seq<Op>, st: St)
    requires forall op :: op in ops ==> WellFormed(op)
    requires forall i :: 0 <= i < |st.log| && Sticks(root, st.log[i])
               ==> ops != [] && (SameBelow(st.tree, t0, st.log[i].gpath) <==> WritesNothingNew(root, st.log[i], t0, TargetOf(root, t0, ops, i)))
    ensures StickingUnchanged(root, t0, st) <==> StickingWroteNothing(root, t0, ops, st.log)
  {
    hide Sticks, SameBelow, WritesNothingNew, TargetOf;
    if StickingWroteNothing(root, t0, ops, st.log) {
      forall b | b in st.log && Sticks(root, b)
        ensures SameBelow(st.tree, t0, b.gpath)
      {
        var i :| 0 <= i < |st.log| && st.log[i] == b;
      }
    }
  }

  // ---------------------------------------------------------------- related targets: the last entry wins

  /** The list entry that q comes with when it is made: q itself, or the one that has q as the leaf of a key. */
  function Owner(q: Path): Path
    requires q != []
  {
    if Last(q).keys != map[] then q else Init(q)
  }

  predicate ComesWithEntry(q: Path) {
    q != [] && Owner(q) != [] && Last(Owner(q)).keys != map[] && q in NewEntry(Owner(q))
  }

  /** GetOrCreateNode for p makes q if the list entry of q is missing. */
  predicate OnTheWay(p: Path, q: Path) {
    ComesWithEntry(q) && Owner(q) <= p
  }

  function Fresh(q: Path): Cell
    requires ComesWithEntry(q)
  {
    NewEntry(Owner(q))[q]
  }

  lemma InNewEntry(p: Path, q: Path)
    requires p != [] && Last(p).keys != map[]
    ensures q in NewEntry(p) <==> ComesWithEntry(q) && Owner(q) == p
  {
    if q in KeyPaths(p) {
      var k :| k in Last(p).keys && q == p + [Elem(k, map[])];
      assert Init(q) == p;
    }
  }

  lemma {:induction false} CreateAt(t: Tree, p: Path, q: Path)
    ensures At(Create(t, p), q) == if OnTheWay(p, q) && Owner(q) !in t then Some(Fresh(q)) else At(t, q)
    decreases |p|
  {
    hide ComesWithEntry, Owner, NewEntry;
    if p == [] {
      NoOwner(q);
    } else {
      CreateAt(t, Init(p), q);
      WayOn(p, q);
      if Last(p).keys != map[] {
        CreateAt(t, Init(p), p);
        OwnsItself(p);
        InNewEntry(p, q);
      } else {
        OwnsKeys(q);
      }
    }
  }

  /** Creating a path leaves every list entry on it there; a new one has a leaf for each of its keys with the value of the
      key, and nothing else comes or goes. */
  lemma CreatedExact(t: Tree, p: Path, q: Path)
    ensures q in t ==> q in Create(t, p)
    ensures q in Create(t, p) && q !in t ==>
              exists i :: 0 <= i < |p| && p[i].keys != map[] && p[..i + 1] !in t
                          && (q == p[..i + 1] || exists k :: k in p[i].keys && q == p[..i + 1] + [Elem(k, map[])])
    ensures forall i :: 0 <= i < |p| && p[i].keys != map[] && p[..i + 1] !in t ==>
              && (q == p[..i + 1] ==> At(Create(t, p), q) == Some(ListEntry))
              && forall k :: k in p[i].keys && q == p[..i + 1] + [Elem(k, map[])] ==> At(Create(t, p), q) == Some(Leaf(p[i].keys[k]))
  {
    hide *;
    CreateAt(t, p, q);
    AtHas(t, q);
    AtHas(Create(t, p), q);
    WayOwned(p, q);
    if OnTheWay(p, q) && Owner(q) !in t {
      CreatedBy(t, p, q);
    }
    forall i | 0 <= i < |p| && p[i].keys != map[] && p[..i + 1] !in t
      ensures q == p[..i + 1] ==> At(Create(t, p), q) == Some(ListEntry)
      ensures forall k :: k in p[i].keys && q == p[..i + 1] + [Elem(k, map[])] ==> At(Create(t, p), q) == Some(Leaf(p[i].keys[k]))
    {
      FreshAt(p, q, i);
    }
  }

  lemma AtHas(t: Tree, q: Path)
    ensures At(t, q) == if q in t then Some(t[q]) else None
  {
  }

  lemma WayOwned(p: Path, q: Path)
    ensures OnTheWay(p, q) ==> q != [] && ComesWithEntry(q)
  {
  }

  lemma CreatedBy(t: Tree, p: Path, q: Path)
    requires OnTheWay(p, q) && Owner(q) !in t
    ensures exists i :: 0 <= i < |p| && p[i].keys != map[] && p[..i + 1] !in t
                        && (q == p[..i + 1] || exists k :: k in p[i].keys && q == p[..i + 1] + [Elem(k, map[])])
  {
    var e := Owner(q);
    var i := |e| - 1;
    NewEntryHas(e, q);
    hide NewEntry, Owner;
    assert p[..i + 1] == e && p[i] == Last(e);
  }

  lemma FreshAt(p: Path, q: Path, i: nat)
    requires i < |p| && p[i].keys != map[]
    ensures q == p[..i + 1] ==> OnTheWay(p, q) && Owner(q) == p[..i + 1] && Fresh(q) == ListEntry
    ensures forall k :: k in p[i].keys && q == p[..i + 1] + [Elem(k, map[])] ==>
              OnTheWay(p, q) && Owner(q) == p[..i + 1] && Fresh(q) == Leaf(p[i].keys[k])
  {
    var e := p[..i + 1];
    assert Last(e) == p[i] && e <= p;
    InNewEntry(e, q);
    NewEntryHas(e, q);
    hide NewEntry, Owner, ComesWithEntry;
  }

  lemma NewEntryHas(e: Path, q: Path)
    requires e != [] && Last(e).keys != map[]
    ensures q in NewEntry(e) <==> q == e || exists k :: k in Last(e).keys && q == e + [Elem(k, map[])]
    ensures q == e ==> NewEntry(e)[q] == ListEntry
    ensures forall k :: k in Last(e).keys && q == e + [Elem(k, map[])] ==> q in NewEntry(e) && NewEntry(e)[q] == Leaf(Last(e).keys[k])
  {
    forall k | k in Last(e).keys && q == e + [Elem(k, map[])]
      ensures q in KeyPaths(e) && Last(q).name == k && q != e
    {
    }
  }

  lemma NoOwner(q: Path)
    ensures !OnTheWay([], q)
  {
  }

  lemma WayOn(p: Path, q: Path)
    requires p != []
    ensures OnTheWay(p, q) <==> OnTheWay(Init(p), q) || (ComesWithEntry(q) && Owner(q) == p)
  {
    hide ComesWithEntry, Owner;
    InitLast(p);
  }

  lemma OwnsItself(p: Path)
    requires p != [] && Last(p).keys != map[]
    ensures Owner(p) == p && !(p <= Init(p))
  {
  }

  lemma OwnsKeys(q: Path)
    ensures ComesWithEntry(q) ==> Owner(q) != [] && Last(Owner(q)).keys != map[]
  {
  }

  /** The list entry e is there after the walk: the last entry of the log that is undone at or above it holds it, or one
      below it was written back after that; without either it was there before. */
  predicate There(root: Entry, t: Tree, log: seq<Backup>, e: Path) {
    if log == [] then e in t
    else if Undoes(root, Last(log)) && Last(log).gpath <= e then e in HeldCells(Last(log))
    else (Last(log).held.Snapshot? && e <= Last(log).gpath) || There(root, t, Init(log), e)
  }

  /** After the entries in front the entry b has something to say about q: it is undone at or above q, or the list entry
      of q is missing and made on the way to where b is written back. */
  predicate Says(root: Entry, t: Tree, front: seq<Backup>, b: Backup, q: Path) {
    || (Undoes(root, b) && b.gpath <= q)
    || (b.held.Snapshot? && OnTheWay(b.gpath, q) && !There(root, t, front, Owner(q)))
  }

  function Given(root: Entry, b: Backup, q: Path): Option<Cell> {
    if Undoes(root, b) && b.gpath <= q then At(HeldCells(b), q)
    else if ComesWithEntry(q) then Some(Fresh(q))
    else None
  }

  /** The i-th entry is the last one that has something to say about q. */
  ghost predicate IsLast(root: Entry, t: Tree, log: seq<Backup>, q: Path, i: nat) {
    && i < |log| && Says(root, t, log[..i], log[i], q)
    && forall j :: i < j < |log| ==> !Says(root, t, log[..j], log[j], q)
  }

  ghost predicate Untold(root: Entry, t: Tree, log: seq<Backup>, q: Path) {
    forall j :: 0 <= j < |log| ==> !Says(root, t, log[..j], log[j], q)
  }

  /** Who has the last word about q. */
  function Word(root: Entry, t: Tree, log: seq<Backup>, q: Path): Option<Cell> {
    if log == [] then At(t, q)
    else if Says(root, t, Init(log), Last(log), q) then Given(root, Last(log), q)
    else Word(root, t, Init(log), q)
  }

  lemma {:induction false} WordIs(root: Entry, t: Tree, log: seq<Backup>, q: Path)
    ensures forall i: nat :: IsLast(root, t, log, q, i) ==> Word(root, t, log, q) == Given(root, log[i], q)
    ensures Untold(root, t, log, q) ==> Word(root, t, log, q) == At(t, q)
    ensures !Untold(root, t, log, q) ==> exists i: nat :: IsLast(root, t, log, q, i)
    decreases |log|
  {
    hide *;
    NoWord(root, t, q);
    LastInside(root, t, log, q);
    if log != [] {
      InitLast(log);
      WordIs(root, t, Init(log), q);
      WordStep(root, t, log, q);
      LastStep(root, t, log, q);
      LastInside(root, t, Init(log), q);
      if Says(root, t, Init(log), Last(log), q) {
        assert IsLast(root, t, log, q, |log| - 1);
      } else if !Untold(root, t, Init(log), q) {
        var i: nat :| IsLast(root, t, Init(log), q, i);
        assert IsLast(root, t, log, q, i);
      }
    }
  }

  lemma NoWord(root: Entry, t: Tree, q: Path)
    ensures Untold(root, t, [], q) && Word(root, t, [], q) == At(t, q)
  {
  }

  lemma LastInside(root: Entry, t: Tree, log: seq<Backup>, q: Path)
    ensures forall i: nat :: IsLast(root, t, log, q, i) ==> i < |log|
  {
    hide Says;
  }

  lemma WordStep(root: Entry, t: Tree, log: seq<Backup>, q: Path)
    requires log != []
    ensures Word(root, t, log, q)
            == if Says(root, t, Init(log), Last(log), q) then Given(root, Last(log), q) else Word(root, t, Init(log), q)
  {
  }

  lemma LastStep(root: Entry, t: Tree, log: seq<Backup>, q: Path)
    requires log != []
    ensures var says := Says(root, t, Init(log), Last(log), q);
            && (Untold(root, t, log, q) <==> !says && Untold(root, t, Init(log), q))
            && forall i: nat :: IsLast(root, t, log, q, i)
                 <==> if says then i == |log| - 1 else i < |log| - 1 && IsLast(root, t, Init(log), q, i)
  {
    hide Says;
    var front, n := Init(log), |log| - 1;
    assert front == log[..n];
    forall j | 0 <= j < n
      ensures front[j] == log[j] && (Says(root, t, front[..j], front[j], q) <==> Says(root, t, log[..j], log[j], q))
    {
      assert front[..j] == log[..j];
    }
    forall i: nat
      ensures IsLast(root, t, log, q, i)
              <==> if Says(root, t, front, Last(log), q) then i == n else i < n && IsLast(root, t, front, q, i)
    {
    }
  }

  lemma UndoneAt(root: Entry, t: Tree, b: Backup, q: Path)
    ensures At(Undo(root, t, b), q)
            == if Undoes(root, b) && b.gpath <= q then At(HeldCells(b), q)
               else if b.held.Snapshot? && OnTheWay(b.gpath, q) && Owner(q) !in t then Some(Fresh(q))
               else At(t, q)
  {
    hide OnTheWay, Create, Fresh;
    if b.held.Snapshot? {
      CreateAt(t, b.gpath, q);
      PutAt(Create(t, b.gpath), b.gpath, b.held.cells, q);
    }
  }

  /** The tree after the walk, at every path, and which list entries it has. */
  ghost predicate Walked(root: Entry, t: Tree, log: seq<Backup>, u: Tree) {
    && (forall q :: At(u, q) == Word(root, t, log, q))
    && (forall e: Path :: e != [] && Last(e).keys != map[] ==> (e in u <==> There(root, t, log, e)))
  }

  lemma {:induction false} WalkIs(root: Entry, t: Tree, log: seq<Backup>)
    ensures Walked(root, t, log, UndoAll(root, t, log))
    decreases |log|
  {
    if log != [] {
      var u, b := UndoAll(root, t, Init(log)), Last(log);
      WalkIs(root, t, Init(log));
      hide *;
      InitLast(log);
      UndoSnoc(root, t, Init(log), b);
      forall q
        ensures At(Undo(root, u, b), q) == Word(root, t, log, q)
        ensures q != [] && Last(q).keys != map[] ==> (q in Undo(root, u, b) <==> There(root, t, log, q))
      {
        StepIs(root, t, log, u, q);
      }
      WalkedIf(root, t, log, UndoAll(root, t, log));
    }
  }

  lemma StepIs(root: Entry, t: Tree, log: seq<Backup>, u: Tree, q: Path)
    requires log != [] && Walked(root, t, Init(log), u)
    ensures At(Undo(root, u, Last(log)), q) == Word(root, t, log, q)
    ensures q != [] && Last(q).keys != map[] ==> (q in Undo(root, u, Last(log)) <==> There(root, t, log, q))
  {
    hide Undo, Undoes, Fresh, Owner, NewEntry, HeldCells;
    UndoneAt(root, u, Last(log), q);
    OwnsKeys(q);
    if q != [] && Last(q).keys != map[] {
      OwnsItself(q);
      InNewEntry(q, q);
      EntryItself(q);
    }
  }

  lemma EntryItself(q: Path)
    requires q != [] && Last(q).keys != map[]
    ensures ComesWithEntry(q)
  {
  }

  lemma WalkedIf(root: Entry, t: Tree, log: seq<Backup>, u: Tree)
    requires forall q :: At(u, q) == Word(root, t, log, q) && (q != [] && Last(q).keys != map[] ==> (q in u <==> There(root, t, log, q)))
    ensures Walked(root, t, log, u)
  {
    hide Word, There;
  }

  /** At every path the tree has what the last entry that says something about it gives it. */
  ghost predicate LastHeld(root: Entry, t: Tree, log: seq<Backup>, u: Tree) {
    forall q, i: nat :: IsLast(root, t, log, q, i) ==> At(u, q) == Given(root, log[i], q)
  }

  /** Where the log says nothing the trees are the same. */
  ghost predicate RestSame(root: Entry, t: Tree, log: seq<Backup>, u: Tree) {
    forall q :: Untold(root, t, log, q) ==> At(u, q) == At(t, q)
  }

  /** Walking any log forwards leaves at every path what the last entry at or above it holds, or a new list entry that was
      made on the way to a later one; where there is neither, nothing changes. So it restores t0 exactly when t0 has all
      this, and the rest was not changed. */
  lemma LastEntryWins(root: Entry, t0: Tree, t: Tree, log: seq<Backup>)
    ensures LastHeld(root, t, log, UndoAll(root, t, log)) && RestSame(root, t, log, UndoAll(root, t, log))
    ensures UndoAll(root, t, log) == t0 <==> LastHeld(root, t, log, t0) && RestSame(root, t, log, t0)
  {
    var u := UndoAll(root, t, log);
    WalkIs(root, t, log);
    hide UndoAll, IsLast, Untold, Word, Given;
    forall q
      ensures forall i: nat :: i < |log| && IsLast(root, t, log, q, i) ==> At(u, q) == Given(root, log[i], q)
      ensures Untold(root, t, log, q) ==> At(u, q) == At(t, q)
      ensures LastHeld(root, t, log, t0) && RestSame(root, t, log, t0) ==> At(u, q) == At(t0, q)
    {
      WordIs(root, t, log, q);
      LastInside(root, t, log, q);
    }
    LastHeldIf(root, t, log, u);
    if LastHeld(root, t, log, t0) && RestSame(root, t, log, t0) {
      SameMap(u, t0);
    }
  }

  lemma LastHeldIf(root: Entry, t: Tree, log: seq<Backup>, u: Tree)
    requires forall q, i: nat :: i < |log| && IsLast(root, t, log, q, i) ==> At(u, q) == Given(root, log[i], q)
    ensures LastHeld(root, t, log, u)
  {
    hide Says, Given;
  }

  // ---------------------------------------------------------------- the trees that a request backs up

  /** The tree in which the operation began that made the i-th entry of the log. */
  function Origin(root: Entry, t0: Tree, ops: seq<Op>, i: nat): Tree
    requires forall op :: op in ops ==> WellFormed(op)
  {
    if ops == [] then t0
    else
      var before := RunOps(root, St(t0, [], false), Init(ops));
      if i < |before.log| then Origin(root, t0, Init(ops), i) else before.tree
  }

  /** The entries from the n-th on hold what was in t. */
  ghost predicate HoldFrom(t: Tree, log: seq<Backup>, n: nat) {
    forall i :: n <= i < |log| ==> HoldsOld(t, log[i])
  }

  lemma OneHolds(root: Entry, optype: OpType, st: St, x: Target, held: Held, pushed: bool, t: Tree, n: nat)
    requires n <= |st.log| && HoldFrom(t, st.log, n) && HoldsOld(t, Backup(optype, x.path, held, false))
    ensures HoldFrom(t, One(root, optype, st, x, held, pushed).log, n)
  {
    hide SameBelow, NothingBelow;
  }

  lemma HoldsItself(optype: OpType, t: Tree, x: Target)
    ensures HoldsOld(t, Backup(optype, x.path, Hold(optype, t, x), false))
  {
  }

  lemma {:induction false} TargetsHold(root: Entry, optype: OpType, st: St, targets: seq<Target>, pushed: seq<bool>)
    requires |pushed| == |targets|
    ensures HoldFrom(st.tree, RunTargets(root, optype, st.tree, st, targets, pushed).log, |st.log|)
  {
    if targets != [] {
      TargetsHold(root, optype, st, Init(targets), Init(pushed));
      TargetsGrowLog(root, optype, st.tree, st, Init(targets), Init(pushed));
      HoldsItself(optype, st.tree, Last(targets));
      hide HoldFrom, HoldsOld, Hold, One;
      var before := RunTargets(root, optype, st.tree, st, Init(targets), Init(pushed));
      OneHolds(root, optype, before, Last(targets), Hold(optype, st.tree, Last(targets)), Last(pushed), st.tree, |st.log|);
    }
  }

  lemma OpHolds(root: Entry, st: St, op: Op)
    requires WellFormed(op) && FoundAll(st.tree, op)
    ensures HoldFrom(st.tree, RunOp(root, st, op).log, |st.log|)
  {
    if op.targets != [] {
      TargetsHold(root, op.optype, st, op.targets, op.pushed);
    } else if op.optype != DELETE {
      OneHolds(root, op.optype, st, op.full, Nil, op.pushedNew, st.tree, |st.log|);
    }
  }

  lemma {:induction false} RunHolds(root: Entry, t0: Tree, ops: seq<Op>)
    requires forall op :: op in ops ==> WellFormed(op)
    requires AlwaysFoundAll(root, St(t0, [], false), ops)
    ensures var log := RunOps(root, St(t0, [], false), ops).log;
            forall i :: 0 <= i < |log| ==> HoldsOld(Origin(root, t0, ops, i), log[i])
  {
    if ops != [] {
      var before := RunOps(root, St(t0, [], false), Init(ops));
      RunHolds(root, t0, Init(ops));
      if !before.failed {
        OpGrowsLog(root, before, Last(ops));
        OpHolds(root, before, Last(ops));
      }
      hide HoldsOld, RunOp;
    }
  }
}
