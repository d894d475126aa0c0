/** What a Set request tells the external store, call by call, and when its operations fail (gnmi/model/set.go and
    Server.set): stated on the fields of the targets and the answers of the store. */
module PushTrace {
  import opened Text
  import opened PathText
  import opened Schema
  import opened DataTree
  import opened Transaction
  import opened Objects
  import opened ObjectSet
  import opened ObjectRun
  import opened PushSync
  import S = StateConfig

  /** What a Set request works with: the schema, the writer, ListAll, the texts of the paths, and the store's answers. */
  datatype World = World(root: Entry, write: Writer, below: (Tree, Path) -> seq<S.Node>, text: Path -> string,
    answers: nat -> bool, removes: (string, string) -> bool)

  /** The calls that the external store has got and what it holds, if there is a store. */
  datatype Outside = NoStore | Store(calls: seq<S.Call>, data: S.Data)

  // ---------------------------------------------------------------- when an operation fails

  /** The target is refused, or cannot be taken out or written. */
  predicate CannotChange(root: Entry, optype: OpType, x: Target, hasOld: bool) {
    || x.readOnly
    || (!x.parsed && hasOld)
    || (hasOld && !x.deletable && (optype == REPLACE || (optype == DELETE && x.path != [])))
    || (optype != DELETE && (Descend(root, Names(x.path)).None? || !x.value.ok))
  }

  /** The i-th target is reached, and something is wrong with it: also when its push is refused. */
  predicate WrongAt(root: Entry, op: Op, i: nat)
    requires WellFormed(op) && i < |op.targets|
  {
    && (CannotChange(root, op.optype, op.targets[i], true) || !op.pushed[i])
    && forall j :: 0 <= j < i ==> !CannotChange(root, op.optype, op.targets[j], true) && op.pushed[j]
  }

  predicate Wrong(root: Entry, op: Op)
    requires WellFormed(op)
  {
    if op.targets == [] then op.optype != DELETE && (CannotChange(root, op.optype, op.full, false) || !op.pushedNew)
    else exists i :: 0 <= i < |op.targets| && WrongAt(root, op, i)
  }

  lemma TakeFails(root: Entry, write: Writer, optype: OpType, st: ObjSt, x: Target, value: Value, pushed: bool)
    requires !st.failed && (optype == DELETE ==> !value.NoValue?)
    ensures Take(root, write, optype, st, x, value, pushed).failed <==> CannotChange(root, optype, x, !value.NoValue?) || !pushed
  {
  }

  /** Of the first n targets one is reached and wrong. */
  lemma {:induction false} TargetsFail(root: Entry, write: Writer, h: Heap, r: nat, st: ObjSt, op: Op, n: nat)
    requires WellFormed(op) && n <= |op.targets| && !st.failed
    requires forall x :: x in op.targets ==> !Fetch(h, r, x.path).NoValue?
    ensures TakeTargets(root, write, op.optype, h, r, st, op.targets[..n], op.pushed[..n]).failed
            <==> exists i :: 0 <= i < n && WrongAt(root, op, i)
    ensures TakeTargets(root, write, op.optype, h, r, st, op.targets[..n], op.pushed[..n]).failed
            || forall j :: 0 <= j < n ==> !CannotChange(root, op.optype, op.targets[j], true) && op.pushed[j]
  {
    hide Take, Fetch, CannotChange;
    if n > 0 {
      TargetsFail(root, write, h, r, st, op, n - 1);
      var x := op.targets[n - 1];
      assert Init(op.targets[..n]) == op.targets[..n - 1] && Init(op.pushed[..n]) == op.pushed[..n - 1];
      var before := TakeTargets(root, write, op.optype, h, r, st, op.targets[..n - 1], op.pushed[..n - 1]);
      if !before.failed {
        TakeFails(root, write, op.optype, before, x, Fetch(h, r, x.path), op.pushed[n - 1]);
        assert WrongAt(root, op, n - 1) <==> CannotChange(root, op.optype, x, true) || !op.pushed[n - 1];
      }
    }
  }

  /** An operation that is run fails if and only if something is wrong with a target that it reaches. */
  lemma OpFails(root: Entry, write: Writer, st: ObjSt, op: Op)
    requires WellFormed(op) && !st.failed && forall x :: x in op.targets ==> !Fetch(st.heap, st.root, x.path).NoValue?
    ensures TakeOp(root, write, st, op).failed <==> Wrong(root, op)
  {
    if op.targets == [] {
      if op.optype != DELETE {
        TakeFails(root, write, op.optype, st, op.full, NoValue, op.pushedNew);
      }
    } else {
      TargetsFail(root, write, st.heap, st.root, st, op, |op.targets|);
      assert op.targets[..|op.targets|] == op.targets && op.pushed[..|op.pushed|] == op.pushed;
    }
    hide Take, TakeTargets;
  }

  /** The entries of the log that are marked executed: all, but for the last one if its operation failed with it. */
  ghost predicate Marked(st: ObjSt) {
    && (forall i :: 0 <= i < |st.log| - 1 ==> st.log[i].executed)
    && (!st.failed && st.log != [] ==> Last(st.log).executed)
  }

  lemma TakeMarks(root: Entry, write: Writer, optype: OpType, st: ObjSt, x: Target, value: Value, pushed: bool)
    requires !st.failed && Marked(st) && (optype == DELETE ==> !value.NoValue?)
    ensures var after := Take(root, write, optype, st, x, value, pushed);
            && Marked(after)
            && after.log == (if x.readOnly || (!x.parsed && !value.NoValue?) then st.log
                             else st.log + [Item(optype, x.path, value, !CannotChange(root, optype, x, !value.NoValue?) && pushed)])
  {
    hide Changed;
  }

  lemma {:induction false} TargetsMark(root: Entry, write: Writer, optype: OpType, h: Heap, r: nat, st: ObjSt, targets: seq<Target>,
      pushed: seq<bool>)
    requires |pushed| == |targets| && Marked(st) && !st.failed && forall x :: x in targets ==> !Fetch(h, r, x.path).NoValue?
    ensures Marked(TakeTargets(root, write, optype, h, r, st, targets, pushed))
    decreases |targets|
  {
    hide Take, Fetch, Marked;
    if targets != [] {
      InitLast(targets);
      assert forall x :: x in Init(targets) ==> x in targets;
      TargetsMark(root, write, optype, h, r, st, Init(targets), Init(pushed));
      var before := TakeTargets(root, write, optype, h, r, st, Init(targets), Init(pushed));
      if !before.failed {
        TakeMarks(root, write, optype, before, Last(targets), Fetch(h, r, Last(targets).path), Last(pushed));
      }
    }
  }

  /** An operation marks what it has changed and pushed. */
  lemma OpMarks(root: Entry, write: Writer, st: ObjSt, op: Op)
    requires WellFormed(op) && Marked(st) && !st.failed && forall x :: x in op.targets ==> !Fetch(st.heap, st.root, x.path).NoValue?
    ensures Marked(TakeOp(root, write, st, op))
  {
    hide Take, TakeTargets, Fetch, Marked;
    if op.targets != [] {
      TargetsMark(root, write, op.optype, st.heap, st.root, st, op.targets, op.pushed);
    } else if op.optype != DELETE {
      TakeMarks(root, write, op.optype, st, op.full, NoValue, op.pushedNew);
    }
  }

  // ---------------------------------------------------------------- what the store is told

  /** One push: its calls in brackets, up to the first that is refused; if none is, the store holds what they make of it. */
  ghost predicate OnePush(w: World, e: Outside, f: Outside, cur: seq<S.Node>, new_: seq<S.Node>, ok: bool) {
    match e
    case NoStore => f == NoStore && ok
    case Store(calls, data) =>
      && f.Store? && S.Pushed(w.answers, calls, f.calls, S.Script(cur, new_), ok)
      && (ok ==> f.data == S.AfterAll(data, S.Script(cur, new_), w.removes))
  }

  /** The nodes of an old value, as its struct is now. */
  function OldList(w: World, h: Heap, value: Value, p: Path): seq<S.Node> {
    if value.Pointer? then w.below(TreeFrom(h, ToRoute(p), value.n), p) else []
  }

  /** The nodes that the tree lists for a path. */
  function NewList(w: World, h: Heap, r: nat, p: Path): seq<S.Node> {
    NewNodes(w.below, w.text, TreeFrom(h, [], r), p)
  }

  /** A target that is changed gets one push, with the nodes of its old value and those that the tree has now; one that
      cannot be changed gets none. */
  ghost predicate TargetTold(w: World, optype: OpType, h: Heap, r: nat, x: Target, value: Value, pushed: bool, e: Outside, f: Outside) {
    if CannotChange(w.root, optype, x, !value.NoValue?) then f == e
    else OnePush(w, e, f, OldList(w, h, value, x.path), NewList(w, h, r, x.path), pushed)
  }

  /** The targets are told one after the other. */
  ghost predicate TargetsTold(w: World, optype: OpType, h: Heap, r: nat, st: ObjSt, targets: seq<Target>, pushed: seq<bool>,
      e: Outside, f: Outside)
    requires |pushed| == |targets|
  {
    if targets == [] then f == e
    else exists mid :: TargetsTold(w, optype, h, r, st, Init(targets), Init(pushed), e, mid)
                       && LastTold(w, optype, h, r, st, targets, pushed, mid, f)
  }

  ghost predicate LastTold(w: World, optype: OpType, h: Heap, r: nat, st: ObjSt, targets: seq<Target>, pushed: seq<bool>,
      mid: Outside, f: Outside)
    requires |pushed| == |targets| && targets != []
  {
    var before := TakeTargets(w.root, w.write, optype, h, r, st, Init(targets), Init(pushed));
    var after := TakeTargets(w.root, w.write, optype, h, r, st, targets, pushed);
    var x := Last(targets);
    if before.failed then f == mid
    else TargetTold(w, optype, after.heap, after.root, x, Fetch(h, r, x.path), Last(pushed), mid, f)
  }

  ghost predicate OpTold(w: World, st: ObjSt, op: Op, e: Outside, f: Outside)
    requires WellFormed(op)
  {
    if op.targets != [] then TargetsTold(w, op.optype, st.heap, st.root, st, op.targets, op.pushed, e, f)
    else if op.optype == DELETE then f == e
    else
      var after := TakeOp(w.root, w.write, st, op);
      TargetTold(w, op.optype, after.heap, after.root, op.full, NoValue, op.pushedNew, e, f)
  }

  ghost predicate OpsTold(w: World, st: ObjSt, ops: seq<Op>, e: Outside, f: Outside)
    requires forall op :: op in ops ==> WellFormed(op)
  {
    if ops == [] then f == e
    else exists mid :: OpsTold(w, st, Init(ops), e, mid) && LastOpTold(w, st, ops, mid, f)
  }

  ghost predicate LastOpTold(w: World, st: ObjSt, ops: seq<Op>, mid: Outside, f: Outside)
    requires ops != [] && forall op :: op in ops ==> WellFormed(op)
  {
    var before := TakeOps(w.root, w.write, st, Init(ops));
    if before.failed then f == mid else OpTold(w, before, Last(ops), mid, f)
  }

  /** Rolling back: an entry that was executed, and whose undoing is no error, gets one push, with the nodes of what was in
      the tree and those that are there now. */
  ghost predicate EntryTold(w: World, h: Heap, r: nat, b: Item, e: Outside, f: Outside) {
    var g := Revert(w.root, h, r, b);
    if b.executed && !(b.value.NoValue? && Descend(w.root, Names(b.gpath)).None?)
    then exists ok :: OnePush(w, e, f, OldList(w, g, Fetch(h, r, b.gpath), b.gpath), NewList(w, g, r, b.gpath), ok)
    else f == e
  }

  ghost predicate RollbackTold(w: World, h: Heap, r: nat, log: seq<Item>, e: Outside, f: Outside) {
    if log == [] then f == e
    else exists mid :: RollbackTold(w, h, r, Init(log), e, mid)
                       && EntryTold(w, RevertAll(w.root, h, r, Init(log)), r, Last(log), mid, f)
  }

  // ---------------------------------------------------------------- one more

  lemma NothingTold(w: World, optype: OpType, h: Heap, r: nat, st: ObjSt, targets: seq<Target>, log: seq<Item>, e: Outside)
    ensures TargetsTold(w, optype, h, r, st, targets[..0], [], e, e)
    ensures OpsTold(w, st, [], e, e)
    ensures RollbackTold(w, h, r, log[..0], e, e)
  {
  }

  lemma TargetMore(w: World, optype: OpType, h: Heap, r: nat, st: ObjSt, targets: seq<Target>, pushed: seq<bool>, last: bool,
      e: Outside, mid: Outside, f: Outside)
    requires |pushed| < |targets| && TargetsTold(w, optype, h, r, st, targets[..|pushed|], pushed, e, mid)
    requires var i := |pushed|;
             var before := TakeTargets(w.root, w.write, optype, h, r, st, targets[..i], pushed);
             var value := Fetch(h, r, targets[i].path);
             var after := Take(w.root, w.write, optype, before, targets[i], value, last);
             !before.failed && TargetTold(w, optype, after.heap, after.root, targets[i], value, last, mid, f)
    ensures TargetsTold(w, optype, h, r, st, targets[..|pushed| + 1], pushed + [last], e, f)
  {
    hide Take, Fetch, TargetTold;
    var i := |pushed|;
    assert Init(targets[..i + 1]) == targets[..i] && Init(pushed + [last]) == pushed;
    assert LastTold(w, optype, h, r, st, targets[..i + 1], pushed + [last], mid, f);
  }

  /** Targets behind one that failed are told nothing. */
  lemma {:induction false} TargetsSilent(w: World, optype: OpType, h: Heap, r: nat, st: ObjSt, targets: seq<Target>,
      pushed: seq<bool>, rest: seq<bool>, e: Outside, f: Outside)
    requires |pushed| + |rest| == |targets| && TargetsTold(w, optype, h, r, st, targets[..|pushed|], pushed, e, f)
    requires TakeTargets(w.root, w.write, optype, h, r, st, targets[..|pushed|], pushed).failed || rest == []
    ensures TargetsTold(w, optype, h, r, st, targets, pushed + rest, e, f)
    decreases |rest|
  {
    hide TakeTargets, Take, Fetch, TargetTold, TargetsTold;
    if rest == [] {
      assert targets[..|pushed|] == targets && pushed + rest == pushed;
    } else {
      var i := |pushed|;
      assert rest == [rest[0]] + rest[1..];
      ConcatAssoc(pushed, [rest[0]], rest[1..]);
      TargetSilent(w, optype, h, r, st, targets, pushed, rest[0], e, f);
      TargetsSilent(w, optype, h, r, st, targets, pushed + [rest[0]], rest[1..], e, f);
    }
  }

  lemma TargetSilent(w: World, optype: OpType, h: Heap, r: nat, st: ObjSt, targets: seq<Target>, pushed: seq<bool>, last: bool,
      e: Outside, f: Outside)
    requires |pushed| < |targets| && TargetsTold(w, optype, h, r, st, targets[..|pushed|], pushed, e, f)
    requires TakeTargets(w.root, w.write, optype, h, r, st, targets[..|pushed|], pushed).failed
    ensures TargetsTold(w, optype, h, r, st, targets[..|pushed| + 1], pushed + [last], e, f)
    ensures TakeTargets(w.root, w.write, optype, h, r, st, targets[..|pushed| + 1], pushed + [last]).failed
  {
    hide Take, Fetch, TargetTold;
    var i := |pushed|;
    assert Init(targets[..i + 1]) == targets[..i] && Init(pushed + [last]) == pushed;
    assert LastTold(w, optype, h, r, st, targets[..i + 1], pushed + [last], f, f);
  }

  lemma OpMoreTold(w: World, st: ObjSt, ops: seq<Op>, op: Op, e: Outside, mid: Outside, f: Outside)
    requires (forall op :: op in ops ==> WellFormed(op)) && WellFormed(op) && OpsTold(w, st, ops, e, mid)
    requires !TakeOps(w.root, w.write, st, ops).failed && OpTold(w, TakeOps(w.root, w.write, st, ops), op, mid, f)
    ensures forall o :: o in ops + [op] ==> WellFormed(o)
    ensures OpsTold(w, st, ops + [op], e, f)
  {
    hide OpTold, TakeOp;
    assert Init(ops + [op]) == ops;
    assert LastOpTold(w, st, ops + [op], mid, f);
  }

  lemma EntryMore(w: World, h: Heap, r: nat, log: seq<Item>, i: nat, e: Outside, mid: Outside, f: Outside)
    requires i < |log| && RollbackTold(w, h, r, log[..i], e, mid)
    requires EntryTold(w, RevertAll(w.root, h, r, log[..i]), r, log[i], mid, f)
    ensures RollbackTold(w, h, r, log[..i + 1], e, f)
  {
    hide EntryTold, RevertAll;
    assert Init(log[..i + 1]) == log[..i];
  }

  lemma OpToldIf(w: World, st: ObjSt, op: Op, e: Outside, f: Outside)
    requires WellFormed(op)
    requires if op.targets != [] then
               |op.pushed| == |op.targets| && TargetsTold(w, op.optype, st.heap, st.root, st, op.targets, op.pushed, e, f)
             else if op.optype == DELETE then f == e
             else
               var after := TakeOp(w.root, w.write, st, op);
               TargetTold(w, op.optype, after.heap, after.root, op.full, NoValue, op.pushedNew, e, f)
    ensures OpTold(w, st, op, e, f)
  {
    hide TargetsTold, TargetTold, TakeOp;
  }

  lemma EntryToldIf(w: World, h: Heap, r: nat, b: Item, ok: bool, e: Outside, f: Outside)
    requires b.executed && !(b.value.NoValue? && Descend(w.root, Names(b.gpath)).None?)
    requires var g := Revert(w.root, h, r, b);
             OnePush(w, e, f, OldList(w, g, Fetch(h, r, b.gpath), b.gpath), NewList(w, g, r, b.gpath), ok)
    ensures EntryTold(w, h, r, b, e, f)
  {
    hide OnePush, OldList, NewList, Fetch, Revert, Descend;
  }

  lemma EntryToldNot(w: World, h: Heap, r: nat, b: Item, e: Outside)
    requires !b.executed || (b.value.NoValue? && Descend(w.root, Names(b.gpath)).None?)
    ensures EntryTold(w, h, r, b, e, e)
  {
    hide OnePush, OldList, NewList, Fetch, Revert, Descend;
  }

  lemma {:induction false} TargetsToldStore(w: World, optype: OpType, h: Heap, r: nat, st: ObjSt, targets: seq<Target>, pushed: seq<bool>,
      e: Outside, f: Outside)
    requires |pushed| == |targets| && TargetsTold(w, optype, h, r, st, targets, pushed, e, f)
    ensures e.Store? <==> f.Store?
    decreases |targets|
  {
    hide TakeTargets, Fetch, CannotChange, OldList, NewList, S.Pushed, S.AfterAll;
    if targets != [] {
      var mid :| TargetsTold(w, optype, h, r, st, Init(targets), Init(pushed), e, mid) && LastTold(w, optype, h, r, st, targets, pushed, mid, f);
      TargetsToldStore(w, optype, h, r, st, Init(targets), Init(pushed), e, mid);
    }
  }

  lemma OpToldStore(w: World, st: ObjSt, op: Op, e: Outside, f: Outside)
    requires WellFormed(op) && OpTold(w, st, op, e, f)
    ensures e.Store? <==> f.Store?
  {
    hide TakeOp, Fetch, CannotChange, OldList, NewList, S.Pushed, S.AfterAll, TargetsTold;
    if op.targets != [] {
      TargetsToldStore(w, op.optype, st.heap, st.root, st, op.targets, op.pushed, e, f);
    }
  }
}
