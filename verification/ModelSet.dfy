/** The object behind a Set request (gnmi/model/set.go) and the request itself (gnmi/server/server.go):
    each loop is tied to the transaction it runs, on the Go objects. */
module ModelSet {
  import opened Text
  import opened PathText
  import opened Schema
  import opened DataTree
  import opened Transaction
  import opened Objects
  import opened ObjectSet
  import opened ObjectRun
  import opened ObjectRollback
  import opened PushTrace
  import opened PushLaw
  import opened PushSync
  import opened Rollback
  import S = StateConfig

  /** Get: the targets that are found for an edit. */
  type Finder = (Heap, nat, Edit) -> seq<Target>

  /** One delete, replace or update of a request, under the prefix of the request. */
  datatype Edit = Edit(optype: OpType, full: Target)

  datatype Outcome = Done | Failed | Aborted

  /** The operation that an edit becomes, for the targets that are found for it. */
  predicate IsOp(op: Op, e: Edit, targets: seq<Target>) {
    WellFormed(op) && op.optype == e.optype && op.full == e.full && op.targets == targets
  }

  /** What the edits so far did: the operations run one after the other, each on the targets found in the tree
      that those before it left, up to the first one that failed, and one outcome for every edit. */
  ghost predicate Progress(root: Entry, write: Writer, found: Finder, start: ObjSt, edits: seq<Edit>, st: ObjSt,
      results: seq<Outcome>, ops: seq<Op>)
  {
    && (forall op :: op in ops ==> WellFormed(op))
    && st == TakeOps(root, write, start, ops)
    && |ops| <= |edits| == |results|
    && (forall i :: 0 <= i < |ops| ==> RunsAs(root, write, found, start, edits, ops, i))
    && (st.failed ==> ops != [])
    && (!st.failed ==> |ops| == |edits|)
    && (forall i :: 0 <= i < |results| ==> results[i] == OutcomeOf(|ops|, st.failed, i))
  }

  ghost predicate RunsAs(root: Entry, write: Writer, found: Finder, start: ObjSt, edits: seq<Edit>, ops: seq<Op>, i: nat)
    requires i < |ops| && i < |edits| && forall op :: op in ops ==> WellFormed(op)
  {
    var before := TakeOps(root, write, start, ops[..i]);
    !before.failed && IsOp(ops[i], edits[i], found(before.heap, before.root, edits[i]))
  }

  function OutcomeOf(ran: nat, failed: bool, i: nat): Outcome {
    if i >= ran then Aborted else if failed && i == ran - 1 then Failed else Done
  }

  lemma AbortMore(root: Entry, write: Writer, found: Finder, start: ObjSt, edits: seq<Edit>, st: ObjSt,
      results: seq<Outcome>,
      ops: seq<Op>, e: Edit)
    requires Progress(root, write, found, start, edits, st, results, ops) && st.failed
    ensures Progress(root, write, found, start, edits + [e], st, results + [Aborted], ops)
  {
    forall i | 0 <= i < |ops|
      ensures RunsAs(root, write, found, start, edits + [e], ops, i)
    {
      assert RunsAs(root, write, found, start, edits, ops, i);
    }
  }

  lemma OpMore(root: Entry, write: Writer, found: Finder, start: ObjSt, edits: seq<Edit>, st: ObjSt, results: seq<Outcome>,
      ops: seq<Op>, e: Edit, op: Op)
    requires Progress(root, write, found, start, edits, st, results, ops) && !st.failed
    requires IsOp(op, e, found(st.heap, st.root, e))
    ensures var after := TakeOp(root, write, st, op);
            Progress(root, write, found, start, edits + [e], after, results + [if after.failed then Failed else Done], ops + [op])
  {
    var all := ops + [op];
    assert Init(all) == ops && Last(all) == op;
    forall i | 0 <= i < |all|
      ensures RunsAs(root, write, found, start, edits + [e], all, i)
    {
      if i < |ops| {
        assert RunsAs(root, write, found, start, edits, ops, i);
        assert all[..i] == ops[..i];
      } else {
        assert all[..i] == ops;
      }
    }
  }

  lemma TargetsSnoc(root: Entry, write: Writer, optype: OpType, st: ObjSt, targets: seq<Target>, pushed: seq<bool>, last: bool)
    requires |pushed| < |targets|
    ensures var i := |pushed|;
            var before := TakeTargets(root, write, optype, st.heap, st.root, st, targets[..i], pushed);
            TakeTargets(root, write, optype, st.heap, st.root, st, targets[..i + 1], pushed + [last])
            == if before.failed then before
               else Take(root, write, optype, before, targets[i], Fetch(st.heap, st.root, targets[i].path), last)
  {
    var i := |pushed|;
    assert Init(targets[..i + 1]) == targets[..i] && Init(pushed + [last]) == pushed;
  }

  lemma NoTargets(root: Entry, write: Writer, optype: OpType, st: ObjSt, targets: seq<Target>)
    ensures TakeTargets(root, write, optype, st.heap, st.root, st, targets[..0], []) == st
  {
  }

  lemma OpTaken(root: Entry, write: Writer, st: ObjSt, op: Op)
    requires WellFormed(op)
    ensures |op.pushed| == |op.targets|
    ensures TakeOp(root, write, st, op)
            == if op.targets != [] then TakeTargets(root, write, op.optype, st.heap, st.root, st, op.targets, op.pushed)
               else if op.optype == DELETE then st
               else Take(root, write, op.optype, st, op.full, NoValue, op.pushedNew)
  {
  }

  /** The answers about the targets after the one that failed do not matter. */
  lemma {:induction false} TargetsStop(root: Entry, write: Writer, optype: OpType, st: ObjSt, targets: seq<Target>,
      pushed: seq<bool>, rest: seq<bool>)
    requires |pushed| + |rest| == |targets|
    requires TakeTargets(root, write, optype, st.heap, st.root, st, targets[..|pushed|], pushed).failed || rest == []
    ensures TakeTargets(root, write, optype, st.heap, st.root, st, targets, pushed + rest)
            == TakeTargets(root, write, optype, st.heap, st.root, st, targets[..|pushed|], pushed)
    decreases |rest|
  {
    hide TakeTargets, Take, Fetch;
    if rest == [] {
      assert targets[..|pushed|] == targets && pushed + rest == pushed;
    } else {
      assert rest == [rest[0]] + rest[1..];
      ConcatAssoc(pushed, [rest[0]], rest[1..]);
      TargetsSnoc(root, write, optype, st, targets, pushed, rest[0]);
      TargetsStop(root, write, optype, st, targets, pushed + [rest[0]], rest[1..]);
    }
  }

  class Model {
    const root: Entry
    const write: Writer
    const found: Finder
    /** ListAll: the nodes below a container, and the text of a path. */
    const below: (Tree, Path) -> seq<S.Node>
    const text: Path -> string
    const store: S.ExternalStore?
    /** The leaves of the schema. */
    ghost const leafs: Path -> bool
    /** The objects, and which of them is m.MO's root. */
    var heap: Heap
    var mo: nat
    var setBackup: seq<Item>

    constructor (root: Entry, write: Writer, found: Finder, below: (Tree, Path) -> seq<S.Node>, text: Path -> string,
        store: S.ExternalStore?, ghost leafs: Path -> bool, heap: Heap, mo: nat)
      ensures this.root == root && this.write == write && this.found == found && this.below == below && this.text == text
      ensures this.store == store && this.leafs == leafs && this.heap == heap && this.mo == mo && setBackup == []
    {
      this.root, this.write, this.found, this.below, this.text := root, write, found, below, text;
      this.store, this.leafs, this.heap, this.mo, this.setBackup := store, leafs, heap, mo, [];
    }

    /** The tree that is seen from the root. */
    function Tree(): Tree
      reads this
    {
      TreeFrom(heap, [], mo)
    }

    /** No push is left open. */
    ghost predicate Idle()
      reads store
    {
      store != null ==> S.PhaseAfter(store.calls) == S.Idle
    }

    ghost function Setting(): World {
      World(root, write, below, text, if store == null then _ => true else store.answers,
            if store == null then (_, _) => false else store.removes)
    }

    /** The calls that the store has got, and what it holds. */
    ghost function External(): Outside
      reads store
    {
      if store == null then NoStore else Store(store.calls, store.data)
    }

    /** ListAll of the old value lists what its struct holds now. */
    method ExecuteStateConfig(gpath: Path, value: Value) returns (ok: bool)
      requires Idle()
      modifies store
      ensures Idle()
      ensures OnePush(Setting(), old(External()), External(), OldList(Setting(), heap, value, gpath),
                      NewList(Setting(), heap, mo, gpath), ok)
    {
      if store == null {
        return true;
      }
      var curlist := if value.Pointer? then below(TreeFrom(heap, ToRoute(gpath), value.n), gpath) else [];
      var newlist := NewNodes(below, text, Tree(), gpath);
      ghost var before := store.calls;
      ok := S.ExecuteStateConfig(store, curlist, newlist);
      S.PushKeepsIdle(store.answers, before, store.calls, curlist, newlist, ok);
    }

    method AddBackupEntry(optype: OpType, gpath: Path, value: Value)
      modifies this`setBackup
      ensures setBackup == old(setBackup) + [Item(optype, gpath, value, false)]
    {
      setBackup := setBackup + [Item(optype, gpath, value, false)];
    }

    method MarkExecuted()
      requires setBackup != []
      modifies this`setBackup
      ensures setBackup == Init(old(setBackup)) + [Last(old(setBackup)).(executed := true)]
    {
      setBackup := Init(setBackup) + [Last(setBackup).(executed := true)];
    }

    /** One round of the loop in SetDelete. */
    method DeleteTarget(x: Target, value: Value) returns (failed: bool, ghost pushed: bool)
      requires Idle() && !value.NoValue?
      modifies this`heap, this`mo, this`setBackup, store
      ensures ObjSt(heap, mo, setBackup, failed)
              == Take(root, write, DELETE, ObjSt(old(heap), old(mo), old(setBackup), false), x, value, pushed)
      ensures failed <==> CannotChange(root, DELETE, x, true) || !pushed
      ensures TargetTold(Setting(), DELETE, heap, mo, x, value, pushed, old(External()), External())
      ensures Idle()
    {
      pushed := false;
      if !x.parsed || x.readOnly {
        return true, false;
      }
      AddBackupEntry(DELETE, x.path, value);
      if x.path == [] {
        mo := heap.next;
        heap := Poke(heap, [], heap.next, EMPTY, 1);
      } else if x.deletable {
        heap := Remove(heap, mo, x.path);
      } else {
        return true, false;
      }
      var ok := ExecuteStateConfig(x.path, value);
      pushed := ok;
      if !ok {
        return true, false;
      }
      MarkExecuted();
      failed := false;
    }

    /** One round of the loop in SetReplace. */
    method ReplaceTarget(x: Target, value: Value) returns (failed: bool, ghost pushed: bool)
      requires Idle() && !value.NoValue?
      modifies this`heap, this`mo, this`setBackup, store
      ensures ObjSt(heap, mo, setBackup, failed)
              == Take(root, write, REPLACE, ObjSt(old(heap), old(mo), old(setBackup), false), x, value, pushed)
      ensures failed <==> CannotChange(root, REPLACE, x, true) || !pushed
      ensures TargetTold(Setting(), REPLACE, heap, mo, x, value, pushed, old(External()), External())
      ensures Idle()
    {
      pushed := false;
      if !x.parsed || x.readOnly {
        return true, false;
      }
      AddBackupEntry(REPLACE, x.path, value);
      if !x.deletable {
        return true, false;
      }
      if x.path != [] {
        heap := Remove(heap, mo, x.path);
      }
      heap := write(heap, mo, x.path, x.value);
      if !WriteOk(root, x.path, x.value) {
        return true, false;
      }
      var ok := ExecuteStateConfig(x.path, value);
      pushed := ok;
      if !ok {
        return true, false;
      }
      MarkExecuted();
      failed := false;
    }

    /** One round of the loop in SetUpdate, and, with no old value, the missing target of SetReplace and SetUpdate. */
    method WriteTarget(optype: OpType, x: Target, value: Value) returns (failed: bool, ghost pushed: bool)
      requires Idle() && (optype == UPDATE || (optype == REPLACE && value.NoValue?))
      modifies this`heap, this`mo, this`setBackup, store
      ensures ObjSt(heap, mo, setBackup, failed)
              == Take(root, write, optype, ObjSt(old(heap), old(mo), old(setBackup), false), x, value, pushed)
      ensures failed <==> CannotChange(root, optype, x, !value.NoValue?) || !pushed
      ensures TargetTold(Setting(), optype, heap, mo, x, value, pushed, old(External()), External())
      ensures Idle()
    {
      pushed := false;
      if (!x.parsed && !value.NoValue?) || x.readOnly {
        return true, false;
      }
      AddBackupEntry(optype, x.path, value);
      heap := write(heap, mo, x.path, x.value);
      if !WriteOk(root, x.path, x.value) {
        return true, false;
      }
      var ok := ExecuteStateConfig(x.path, value);
      pushed := ok;
      if !ok {
        return true, false;
      }
      MarkExecuted();
      failed := false;
    }

    /** SetDelete, SetReplace and SetUpdate. */
    method SetEdit(e: Edit) returns (failed: bool, ghost op: Op)
      requires Idle() && FindsThere(found)
      modifies this`heap, this`mo, this`setBackup, store
      ensures IsOp(op, e, found(old(heap), old(mo), e))
      ensures ObjSt(heap, mo, setBackup, failed) == TakeOp(root, write, ObjSt(old(heap), old(mo), old(setBackup), false), op)
      ensures OpTold(Setting(), ObjSt(old(heap), old(mo), old(setBackup), false), op, old(External()), External())
      ensures Idle()
    {
      hide TakeTargets, TakeOp, Take, Fetch, IsThere, Fits, TargetTold, TargetsTold, CannotChange;
      ghost var w, outside := Setting(), External();
      var targets, h, r := found(heap, mo, e), heap, mo;
      ghost var start := ObjSt(heap, mo, setBackup, false);
      ghost var pushed: seq<bool> := [];
      failed := false;
      if targets == [] {
        op := Op(e.optype, e.full, [], [], false);
        if e.optype != DELETE {
          ghost var one;
          failed, one := WriteTarget(e.optype, e.full, NoValue);
          op := Op(e.optype, e.full, [], [], one);
        }
        OpTaken(root, write, start, op);
        OpToldIf(w, start, op, outside, External());
        return;
      }
      NoTargets(root, write, e.optype, start, targets);
      NothingTold(w, e.optype, h, r, start, targets, [], outside);
      for i := 0 to |targets|
        invariant |pushed| == i && !failed && Idle()
        invariant ObjSt(heap, mo, setBackup, false) == TakeTargets(root, write, e.optype, h, r, start, targets[..i], pushed)
        invariant TargetsTold(w, e.optype, h, r, start, targets[..i], pushed, outside, External())
      {
        ghost var mid := External();
        var x := targets[i];
        var value := Fetch(h, r, x.path);
        FoundThere(h, r, x.path);
        ghost var one;
        if e.optype == DELETE {
          failed, one := DeleteTarget(x, value);
        } else if e.optype == REPLACE {
          failed, one := ReplaceTarget(x, value);
        } else {
          failed, one := WriteTarget(UPDATE, x, value);
        }
        TargetsSnoc(root, write, e.optype, start, targets, pushed, one);
        TargetMore(w, e.optype, h, r, start, targets, pushed, one, outside, mid, External());
        pushed := pushed + [one];
        if failed {
          ghost var rest := seq(|targets| - i - 1, _ => false);
          TargetsStop(root, write, e.optype, start, targets, pushed, rest);
          TargetsSilent(w, e.optype, h, r, start, targets, pushed, rest, outside, External());
          op := Op(e.optype, e.full, targets, pushed + rest, false);
          OpTaken(root, write, start, op);
          OpToldIf(w, start, op, outside, External());
          return;
        }
      }
      TargetsStop(root, write, e.optype, start, targets, pushed, []);
      TargetsSilent(w, e.optype, h, r, start, targets, pushed, [], outside, External());
      op := Op(e.optype, e.full, targets, pushed + [], false);
      OpTaken(root, write, start, op);
      OpToldIf(w, start, op, outside, External());
    }

    /** DeleteValue or WriteValue of the old value; deleting outside the schema is an error. */
    method Restore(b: Item) returns (ok: bool)
      modifies this`heap
      ensures heap == Revert(root, old(heap), mo, b)
      ensures ok == !(b.value.NoValue? && Descend(root, Names(b.gpath)).None?)
    {
      ok := true;
      match b.value {
        case NoValue =>
          ok := Descend(root, Names(b.gpath)).Some?;
          if ok && !Refuses(root, b.gpath) {
            heap := Remove(heap, mo, b.gpath);
          }
        case LeafValue(v) =>
          if b.gpath != [] {
            heap := WriteLeaf(heap, mo, b.gpath, v);
          }
        case Pointer(n) =>
          heap := WriteStruct(heap, mo, b.gpath, n);
      }
    }

    /** The log is walked forwards, each entry that was executed is pushed. So a leaf that is in step with the tree stays so,
        if the store accepts what it is told and the walk does not take the leaf away unseen. */
    method SetRollback()
      requires Idle()
      modifies this`heap, this`setBackup, store
      ensures heap == RevertAll(root, old(heap), mo, old(setBackup)) && setBackup == []
      ensures RollbackTold(Setting(), old(heap), mo, old(setBackup), old(External()), External())
      ensures Idle()
      ensures store != null && Rewindable(Setting(), leafs, old(heap), mo, old(setBackup)) && Accepted(Setting(), old(External()), External())
              ==> forall q :: leafs(q) && WalkKeeps(root, leafs, old(heap), mo, old(setBackup), q) ==>
                                InStep(text, old(store.data), old(Tree()), q) ==> InStep(text, store.data, Tree(), q)
    {
      hide *;
      ghost var w, outside := Setting(), External();
      ghost var h, log := heap, setBackup;
      StoreHas();
      TreeIs();
      NothingTold(w, UPDATE, heap, mo, ObjSt(heap, mo, [], false), [], setBackup, outside);
      NothingToRevert(root, heap, mo);
      assert log[..0] == [];
      for i := 0 to |setBackup|
        invariant Idle() && setBackup == log && |log| >= i
        invariant heap == RevertAll(root, h, mo, log[..i])
        invariant RollbackTold(w, h, mo, log[..i], outside, External())
      {
        ghost var mid := External();
        ghost var g := heap;
        var entry := setBackup[i];
        var new_ := Fetch(heap, mo, entry.gpath);
        var ok := Restore(entry);
        assert log[..i + 1] == log[..i] + [entry];
        RevertSnoc(root, h, mo, log[..i], entry);
        if ok && entry.executed {
          var done := ExecuteStateConfig(entry.gpath, new_);
          EntryToldIf(w, g, mo, entry, done, mid, External());
        } else {
          EntryToldNot(w, g, mo, entry, mid);
        }
        EntryMore(w, h, mo, log, i, outside, mid, External());
      }
      assert log[..|log|] == log;
      setBackup := [];
      StoreHas();
      if store != null && Rewindable(w, leafs, h, mo, log) && Accepted(w, outside, External()) {
        forall q | leafs(q) && WalkKeeps(root, leafs, h, mo, log, q) && InStep(text, outside.data, TreeFrom(h, [], mo), q)
          ensures InStep(text, External().data, TreeFrom(heap, [], mo), q)
        {
          RewindableParts(w, leafs, h, mo, log);
          RollbackInStep(w, leafs, h, mo, log, outside, External(), q);
        }
      }
      TreeIs();
    }

    /** With an external store the tree goes back to the old data here, also after a success: the store is
        expected to report the new data itself. */
    method SetDone()
      modifies this`heap, this`setBackup
      ensures heap == if store == null then old(heap) else RevertAll(root, old(heap), mo, old(setBackup))
      ensures setBackup == if store == null then old(setBackup) else []
    {
      if setBackup == [] || store == null {
        return;
      }
      ghost var h := heap;
      for i := 0 to |setBackup|
        invariant setBackup == old(setBackup)
        invariant heap == RevertAll(root, h, mo, setBackup[..i])
      {
        assert Init(setBackup[..i + 1]) == setBackup[..i];
        var _ := Restore(setBackup[i]);
      }
      assert setBackup[..|setBackup|] == setBackup;
      setBackup := [];
    }

    /** The objects, the log, the store and the outcomes after the edits so far. */
    ghost predicate Reached(start: ObjSt, outside: Outside, edits: seq<Edit>, failed: bool, result: seq<Outcome>, ops: seq<Op>)
      reads this, store
    {
      && Idle() && Progress(root, write, found, start, edits, ObjSt(heap, mo, setBackup, failed), result, ops)
      && OpsTold(Setting(), start, ops, outside, External())
    }

    /** One round of a loop of Server.set. */
    method Next(e: Edit, failed: bool, result: seq<Outcome>, ghost start: ObjSt, ghost outside: Outside, ghost edits: seq<Edit>,
        ghost ops: seq<Op>)
      returns (failed': bool, result': seq<Outcome>, ghost ops': seq<Op>)
      requires FindsThere(found) && Reached(start, outside, edits, failed, result, ops)
      modifies this`heap, this`mo, this`setBackup, store
      ensures Reached(start, outside, edits + [e], failed', result', ops')
    {
      ghost var st := ObjSt(heap, mo, setBackup, failed);
      hide TakeOp, TakeOps, OpTold, OpsTold, IsThere, Fits;
      if failed {
        AbortMore(root, write, found, start, edits, st, result, ops, e);
        return failed, result + [Aborted], ops;
      }
      ghost var op;
      ghost var mid := External();
      failed', op := SetEdit(e);
      OpMore(root, write, found, start, edits, st, result, ops, e, op);
      OpMoreTold(Setting(), start, ops, op, outside, mid, External());
      result' := result + [if failed' then Failed else Done];
      ops' := ops + [op];
    }

    /** A loop of Server.set, over its deletes, replaces or updates. */
    method NextAll(more: seq<Edit>, failed: bool, result: seq<Outcome>, ghost start: ObjSt, ghost outside: Outside,
        ghost edits: seq<Edit>, ghost ops: seq<Op>)
      returns (failed': bool, result': seq<Outcome>, ghost ops': seq<Op>)
      requires FindsThere(found) && Reached(start, outside, edits, failed, result, ops)
      modifies this`heap, this`mo, this`setBackup, store
      ensures Reached(start, outside, edits + more, failed', result', ops')
    {
      hide *;
      ghost var done := edits;
      failed', result', ops' := failed, result, ops;
      for i := 0 to |more|
        invariant done == edits + more[..i]
        invariant Reached(start, outside, done, failed', result', ops')
      {
        failed', result', ops' := Next(more[i], failed', result', start, outside, done, ops');
        done := done + [more[i]];
      }
      assert more[..|more|] == more;
    }

    /** The three loops of Server.set. */
    method AllEdits(deletes: seq<Edit>, replacements: seq<Edit>, updates: seq<Edit>)
      returns (failed: bool, result: seq<Outcome>, ghost ops: seq<Op>)
      requires Idle() && FindsThere(found) && setBackup == []
      modifies this`heap, this`mo, this`setBackup, store
      ensures Reached(ObjSt(old(heap), old(mo), [], false), old(External()), deletes + replacements + updates, failed, result, ops)
    {
      ghost var start, outside := ObjSt(heap, mo, [], false), External();
      failed, result, ops := false, [], [];
      NothingTold(Setting(), UPDATE, heap, mo, start, [], [], outside);
      assert Reached(start, outside, [], failed, result, ops);
      hide *;
      failed, result, ops := NextAll(deletes, failed, result, start, outside, [], ops);
      assert [] + deletes == deletes;
      failed, result, ops := NextAll(replacements, failed, result, start, outside, deletes, ops);
      failed, result, ops := NextAll(updates, failed, result, start, outside, deletes + replacements, ops);
    }

    /** Server.set: the deletes, then the replaces, then the updates, then the rollback and the end. The tree that the request
        wrote, and what the store had been told by then, are returned for the record. */
    method Set(deletes: seq<Edit>, replacements: seq<Edit>, updates: seq<Edit>)
      returns (failed: bool, result: seq<Outcome>, ghost ops: seq<Op>, ghost wrote: Tree, ghost told: Outside)
      requires Idle() && FindsThere(found)
      modifies this`heap, this`mo, this`setBackup, store
      ensures Idle()
      ensures forall op :: op in ops ==> WellFormed(op)
      ensures var start := ObjSt(old(heap), old(mo), [], false);
              var st := TakeOps(root, write, start, ops);
              && failed == st.failed && mo == st.root && wrote == TreeFrom(st.heap, [], st.root)
              && Progress(root, write, found, start, deletes + replacements + updates, st, result, ops)
              && heap == (if failed || store != null then RevertAll(root, st.heap, st.root, st.log) else st.heap)
              && Marked(st) && OpsTold(Setting(), start, ops, old(External()), told)
              && if failed then RollbackTold(Setting(), st.heap, st.root, st.log, told, External()) else External() == told
      // It fails exactly when something is wrong with a target that the last operation reaches.
      ensures failed <==> ops != [] && Wrong(root, Last(ops))
      ensures forall k :: 0 <= k < |ops| - 1 ==> !Wrong(root, ops[k])
      ensures |result| == |deletes| + |replacements| + |updates| && |ops| <= |result|
      ensures forall k :: 0 <= k < |result| ==>
                result[k] == if k >= |ops| then Aborted else if k == |ops| - 1 && Wrong(root, ops[k]) then Failed else Done
      ensures !failed ==> |ops| == |result|
      // Rolled back, a request that can be restored leaves the tree as it was.
      ensures Sane(root, write, old(heap), old(mo), deletes + replacements + updates)
              && Restorable(root, TreeFrom(old(heap), [], old(mo)), ops) && (failed || store != null)
              ==> Tree() == old(Tree())
      // Otherwise the store holds every leaf of the tree that was written, if it held it before and no target does it harm.
      ensures store != null && !failed
              && Sane(root, write, old(heap), old(mo), deletes + replacements + updates) && Assumed(Setting(), leafs)
              && Typed(leafs, old(Tree())) && (forall op :: op in ops ==> Plain(leafs, op))
              ==> forall q :: leafs(q) && Spared(old(Tree()), ops, q) ==>
                                InStep(text, old(store.data), old(Tree()), q) ==> InStep(text, store.data, wrote, q)
    {
      hide *;
      ghost var start, outside := ObjSt(heap, mo, [], false), External();
      ghost var edits := deletes + replacements + updates;
      StoreHas();
      TreeIs();
      setBackup := [];
      failed, result, ops := AllEdits(deletes, replacements, updates);
      Unfold(start, outside, edits, failed, result, ops);
      ghost var st := ObjSt(heap, mo, setBackup, failed);
      wrote, told := Tree(), External();
      TreeIs();
      RequestFails(root, write, found, start, edits, st, result, ops);
      RequestMarks(root, write, found, start, edits, st, result, ops, |ops|);
      assert ops[..|ops|] == ops;
      if failed {
        SetRollback();
        NothingToRevert(root, heap, mo);
      }
      SetDone();
      TreeIs();
      StoreHas();
      if Sane(root, write, start.heap, start.root, edits) && Restorable(root, TreeFrom(start.heap, [], start.root), ops) {
        Restores(root, write, found, start, edits, st, result, ops);
      }
      LeavesInStep(Setting(), found, leafs, start, edits, st, result, ops, outside, told);
    }

    lemma TreeIs()
      ensures Tree() == TreeFrom(heap, [], mo)
    {
    }

    lemma StoreHas()
      ensures store == null ==> External() == NoStore
      ensures store != null ==> External() == Store(store.calls, store.data)
      ensures Setting().root == root && Setting().write == write && Setting().text == text
    {
    }

    lemma Unfold(start: ObjSt, outside: Outside, edits: seq<Edit>, failed: bool, result: seq<Outcome>, ops: seq<Op>)
      requires Reached(start, outside, edits, failed, result, ops)
      ensures Idle() && Progress(root, write, found, start, edits, ObjSt(heap, mo, setBackup, failed), result, ops)
      ensures forall op :: op in ops ==> WellFormed(op)
      ensures ObjSt(heap, mo, setBackup, failed) == TakeOps(root, write, start, ops)
      ensures OpsTold(Setting(), start, ops, outside, External())
    {
    }
  }

  /** Which requests fail, and with which outcomes. */
  lemma RequestFails(root: Entry, write: Writer, found: Finder, start: ObjSt, edits: seq<Edit>, st: ObjSt,
      results: seq<Outcome>, ops: seq<Op>)
    requires Progress(root, write, found, start, edits, st, results, ops) && FindsThere(found) && !start.failed
    ensures forall op :: op in ops ==> WellFormed(op)
    ensures st.failed <==> ops != [] && Wrong(root, Last(ops))
    ensures forall k :: 0 <= k < |ops| - 1 ==> !Wrong(root, ops[k])
    ensures |results| == |edits| && |ops| <= |results| && (!st.failed ==> |ops| == |results|)
    ensures forall k :: 0 <= k < |results| ==>
              results[k] == if k >= |ops| then Aborted else if k == |ops| - 1 && Wrong(root, ops[k]) then Failed else Done
  {
    hide Wrong, TakeOp, TakeOps, IsThere, Fits, WellFormed;
    forall k | 0 <= k < |ops|
      ensures Wrong(root, ops[k]) <==> TakeOps(root, write, start, ops[..k + 1]).failed
      ensures !TakeOps(root, write, start, ops[..k]).failed
    {
      FailsAt(root, write, found, start, edits, st, results, ops, k);
    }
    forall k | 0 <= k < |ops| - 1
      ensures !Wrong(root, ops[k])
    {
      assert !TakeOps(root, write, start, ops[..k + 1]).failed;
    }
    assert ops[..|ops|] == ops;
    NoOps(root, write, start);
  }

  lemma NoOps(root: Entry, write: Writer, start: ObjSt)
    ensures TakeOps(root, write, start, []) == start
  {
  }

  lemma FailsAt(root: Entry, write: Writer, found: Finder, start: ObjSt, edits: seq<Edit>, st: ObjSt,
      results: seq<Outcome>, ops: seq<Op>, k: nat)
    requires Progress(root, write, found, start, edits, st, results, ops) && FindsThere(found) && k < |ops|
    ensures WellFormed(ops[k]) && forall op :: op in ops ==> WellFormed(op)
    ensures Wrong(root, ops[k]) <==> TakeOps(root, write, start, ops[..k + 1]).failed
    ensures !TakeOps(root, write, start, ops[..k]).failed
  {
    hide Wrong, TakeOp, IsThere, Fits;
    var before := TakeOps(root, write, start, ops[..k]);
    assert RunsAs(root, write, found, start, edits, ops, k) && ops[k] in ops;
    assert Init(ops[..k + 1]) == ops[..k] && Last(ops[..k + 1]) == ops[k];
    forall x | x in ops[k].targets
      ensures !Fetch(before.heap, before.root, x.path).NoValue?
    {
      FoundThere(before.heap, before.root, x.path);
    }
    OpFails(root, write, before, ops[k]);
  }

  /** Exactly what was changed and pushed is marked executed. */
  lemma {:induction false} RequestMarks(root: Entry, write: Writer, found: Finder, start: ObjSt, edits: seq<Edit>, st: ObjSt,
      results: seq<Outcome>, ops: seq<Op>, k: nat)
    requires Progress(root, write, found, start, edits, st, results, ops) && FindsThere(found) && k <= |ops|
    requires start.log == [] && !start.failed
    ensures (forall op :: op in ops ==> WellFormed(op)) && Marked(TakeOps(root, write, start, ops[..k]))
  {
    hide TakeOp, TakeOps, IsThere, Fits, WellFormed, Fetch;
    NoOps(root, write, start);
    if k == 0 {
      assert ops[..0] == [];
    } else {
      RequestMarks(root, write, found, start, edits, st, results, ops, k - 1);
      var before := TakeOps(root, write, start, ops[..k - 1]);
      assert RunsAs(root, write, found, start, edits, ops, k - 1) && ops[k - 1] in ops;
      forall x | x in ops[k - 1].targets
        ensures !Fetch(before.heap, before.root, x.path).NoValue?
      {
        FoundThere(before.heap, before.root, x.path);
      }
      OpMarks(root, write, before, ops[k - 1]);
      OneMoreTaken(root, write, start, ops, k);
    }
  }

  lemma OneMoreTaken(root: Entry, write: Writer, start: ObjSt, ops: seq<Op>, k: nat)
    requires 0 < k <= |ops| && forall op :: op in ops ==> WellFormed(op)
    ensures var before := TakeOps(root, write, start, ops[..k - 1]);
            TakeOps(root, write, start, ops[..k]) == if before.failed then before else TakeOp(root, write, before, ops[k - 1])
  {
    hide TakeOp;
    assert Init(ops[..k]) == ops[..k - 1] && Last(ops[..k]) == ops[k - 1];
  }

  // ---------------------------------------------------------------- the store at the end of a request

  /** The target x of the kind optype is one of the request. */
  predicate IsTarget(ops: seq<Op>, optype: OpType, x: Target) {
    exists op :: op in ops && op.optype == optype && (if op.targets == [] then optype != DELETE && x == op.full else x in op.targets)
  }

  /** No target deletes the leaf q; and if a target lies below the list entry that q is a key of, the entry was there, and no
      target takes it out. */
  ghost predicate Spared(t0: Tree, ops: seq<Op>, q: Path) {
    && (forall optype, x :: IsTarget(ops, optype, x) && x.path == q ==>
          optype == UPDATE || (optype == REPLACE && q in x.value.cells && x.value.cells[q].Leaf?))
    && ((exists optype, x :: IsTarget(ops, optype, x) && OnTheWay(x.path, q) && !(x.path <= q)) ==>
          && Owner(q) in t0
          && forall optype, x :: IsTarget(ops, optype, x) && x.path <= Owner(q) ==> optype == UPDATE || (optype == REPLACE && x.path == []))
  }

  lemma SparedHarmless(t0: Tree, ops: seq<Op>, q: Path) returns (owned: bool)
    requires Spared(t0, ops, q)
    ensures forall op :: op in ops ==> OpHarmless(op, q, owned)
    ensures owned ==> ComesWithEntry(q) && Owner(q) in t0
  {
    hide ComesWithEntry, Owner;
    owned := exists optype, x :: IsTarget(ops, optype, x) && OnTheWay(x.path, q) && !(x.path <= q);
    forall op | op in ops
      ensures OpHarmless(op, q, owned)
    {
      forall x | if op.targets == [] then op.optype != DELETE && x == op.full else x in op.targets
        ensures Harmless(op.optype, x, q, owned)
      {
        assert IsTarget(ops, op.optype, x);
      }
    }
  }

  lemma OpsFound(w: World, found: Finder, start: ObjSt, edits: seq<Edit>, st: ObjSt, results: seq<Outcome>, ops: seq<Op>)
    requires Progress(w.root, w.write, found, start, edits, st, results, ops) && FindsThere(found)
    requires forall e :: e in edits ==> Fits(e.full.path, e.full.value)
    ensures (forall op :: op in ops ==> WellFormed(op)) && AllFound(w, start, ops)
  {
    hide TakeOps, Fits, IsThere, Fetch, OutcomeOf;
    forall k | 0 <= k < |ops|
      ensures var now := TakeOps(w.root, w.write, start, ops[..k]); Found(now.heap, now.root, ops[k])
    {
      var now := TakeOps(w.root, w.write, start, ops[..k]);
      assert RunsAs(w.root, w.write, found, start, edits, ops, k) && edits[k] in edits;
      forall x | x in ops[k].targets
        ensures !Fetch(now.heap, now.root, x.path).NoValue?
      {
        FoundThere(now.heap, now.root, x.path);
      }
    }
  }

  /** A leaf that was in step is in step in the tree that the request has written. */
  lemma AllInStep(w: World, found: Finder, leafs: Path -> bool, start: ObjSt, edits: seq<Edit>, st: ObjSt, results: seq<Outcome>,
      ops: seq<Op>, e: Outside, f: Outside, q: Path)
    requires Progress(w.root, w.write, found, start, edits, st, results, ops) && FindsThere(found) && !start.failed && !st.failed
    requires Sane(w.root, w.write, start.heap, start.root, edits) && Assumed(w, leafs) && leafs(q)
    requires Typed(leafs, TreeFrom(start.heap, [], start.root)) && forall op :: op in ops ==> Plain(leafs, op)
    requires Spared(TreeFrom(start.heap, [], start.root), ops, q)
    requires (forall op :: op in ops ==> WellFormed(op)) && OpsTold(w, start, ops, e, f)
    requires e.Store? && InStep(w.text, e.data, TreeFrom(start.heap, [], start.root), q)
    ensures f.Store? && InStep(w.text, f.data, TreeFrom(st.heap, [], st.root), q)
  {
    hide *;
    SaneParts(w.root, w.write, start.heap, start.root, edits);
    ProgressParts(w.root, w.write, found, start, edits, st, results, ops);
    OpsFound(w, found, start, edits, st, results, ops);
    var owned := SparedHarmless(TreeFrom(start.heap, [], start.root), ops, q);
    NotRoot(q);
    GoingIf(w, leafs, start.heap, start.root, e, q, owned);
    RequestInStep(w, leafs, start, ops, e, f, q, owned);
    GoingParts(w, leafs, st.heap, st.root, f, q, owned);
  }

  lemma LeavesInStep(w: World, found: Finder, leafs: Path -> bool, start: ObjSt, edits: seq<Edit>, st: ObjSt,
      results: seq<Outcome>, ops: seq<Op>, e: Outside, f: Outside)
    requires Progress(w.root, w.write, found, start, edits, st, results, ops) && FindsThere(found) && !start.failed
    requires (forall op :: op in ops ==> WellFormed(op)) && OpsTold(w, start, ops, e, f)
    ensures e.Store? && !st.failed && Sane(w.root, w.write, start.heap, start.root, edits) && Assumed(w, leafs)
            && Typed(leafs, TreeFrom(start.heap, [], start.root)) && (forall op :: op in ops ==> Plain(leafs, op))
            ==> f.Store? && forall q :: leafs(q) && Spared(TreeFrom(start.heap, [], start.root), ops, q) ==>
                  InStep(w.text, e.data, TreeFrom(start.heap, [], start.root), q) ==> InStep(w.text, f.data, TreeFrom(st.heap, [], st.root), q)
  {
    hide *;
    if e.Store? && !st.failed && Sane(w.root, w.write, start.heap, start.root, edits) && Assumed(w, leafs)
       && Typed(leafs, TreeFrom(start.heap, [], start.root)) && forall op :: op in ops ==> Plain(leafs, op) {
      ToldStore(w, start, ops, e, f);
      forall q | leafs(q) && Spared(TreeFrom(start.heap, [], start.root), ops, q)
                 && InStep(w.text, e.data, TreeFrom(start.heap, [], start.root), q)
        ensures InStep(w.text, f.data, TreeFrom(st.heap, [], st.root), q)
      {
        AllInStep(w, found, leafs, start, edits, st, results, ops, e, f, q);
      }
    }
  }

  lemma {:induction false} ToldStore(w: World, st: ObjSt, ops: seq<Op>, e: Outside, f: Outside)
    requires (forall op :: op in ops ==> WellFormed(op)) && OpsTold(w, st, ops, e, f)
    ensures e.Store? <==> f.Store?
    decreases |ops|
  {
    hide TakeOps, OpTold, WellFormed;
    if ops != [] {
      var mid :| OpsTold(w, st, Init(ops), e, mid) && LastOpTold(w, st, ops, mid, f);
      assert forall op :: op in Init(ops) ==> op in ops;
      ToldStore(w, st, Init(ops), e, mid);
      if f != mid {
        OpToldStore(w, TakeOps(w.root, w.write, st, Init(ops)), Last(ops), mid, f);
      }
    }
  }

  lemma NotRoot(q: Path)
    ensures ComesWithEntry(q) ==> q != []
  {
  }

  lemma FoundThere(h: Heap, r: nat, p: Path)
    requires IsThere(h, r, p)
    ensures !Fetch(h, r, p).NoValue?
  {
    hide Leads, Sees;
  }

  lemma NothingToRevert(root: Entry, h: Heap, r: nat)
    ensures RevertAll(root, h, r, []) == h
  {
  }

  /** What Get finds is there, and the values fit. */
  ghost predicate FindsThere(found: Finder) {
    forall h, r, e, x :: x in found(h, r, e) ==> IsThere(h, r, x.path) && Fits(x.path, x.value)
  }

  /** Links lead to objects, values are written in place, and the values of the request fit. */
  ghost predicate Sane(root: Entry, write: Writer, h: Heap, r: nat, edits: seq<Edit>) {
    && Sound(h) && ([], r) in h.objs && Writes(root, write)
    && forall e :: e in edits ==> Fits(e.full.path, e.full.value)
  }

  /** The operations of a request that rolling back restores. */
  ghost predicate Restorable(root: Entry, t0: Tree, ops: seq<Op>)
    requires forall op :: op in ops ==> WellFormed(op)
  {
    var st := RunOps(root, St(t0, [], false), ops);
    WellRun(root, t0, ops, st) && forall b :: b in st.log ==> !Sticks(root, b)
  }

  /** The targets that an operation logs are unrelated to each other. */
  ghost predicate EachApart(root: Entry, t: St, ops: seq<Op>)
    requires forall op :: op in ops ==> WellFormed(op)
  {
    forall k :: 0 <= k < |ops| ==> NewApart(RunOps(root, t, ops[..k + 1]).log, |RunOps(root, t, ops[..k]).log|)
  }

  /** What Server.set runs is ready to run on the objects. */
  lemma {:induction false} RequestReady(root: Entry, write: Writer, found: Finder, start: ObjSt, t: St, edits: seq<Edit>,
      st: ObjSt, results: seq<Outcome>, ops: seq<Op>, k: nat)
    requires Progress(root, write, found, start, edits, st, results, ops) && FindsThere(found) && k <= |ops|
    requires (forall e :: e in edits ==> Fits(e.full.path, e.full.value)) && EachApart(root, t, ops)
    ensures (forall op :: op in ops[..k] ==> WellFormed(op)) && RunReady(root, write, start, t, ops[..k])
  {
    hide Fits, IsThere, RunOps, TakeOps, NewApart, RunOp, WellFormed, OutcomeOf;
    assert forall op :: op in ops[..k] ==> op in ops;
    if k > 0 {
      RequestReady(root, write, found, start, t, edits, st, results, ops, k - 1);
      assert Init(ops[..k]) == ops[..k - 1] && Last(ops[..k]) == ops[k - 1];
      RunSnoc(root, t, ops[..k]);
      assert RunsAs(root, write, found, start, edits, ops, k - 1) && edits[k - 1] in edits;
      assert NewApart(RunOps(root, t, ops[..k - 1 + 1]).log, |RunOps(root, t, ops[..k - 1]).log|);
    }
  }

  lemma RunSnoc(root: Entry, t: St, ops: seq<Op>)
    requires ops != [] && forall op :: op in ops ==> WellFormed(op)
    ensures var before := RunOps(root, t, Init(ops));
            RunOps(root, t, ops) == if before.failed then before else RunOp(root, before, Last(ops))
  {
  }

  lemma {:induction false} RunLogGrows(root: Entry, t: St, ops: seq<Op>, k: nat)
    requires k <= |ops| && forall op :: op in ops ==> WellFormed(op)
    ensures RunOps(root, t, ops[..k]).log <= RunOps(root, t, ops).log
    decreases |ops| - k
  {
    hide RunOps, RunOp;
    if k == |ops| {
      assert ops[..k] == ops;
    } else {
      RunLogGrows(root, t, ops, k + 1);
      assert Init(ops[..k + 1]) == ops[..k] && Last(ops[..k + 1]) == ops[k];
      RunSnoc(root, t, ops[..k + 1]);
      OpGrowsLog(root, RunOps(root, t, ops[..k]), ops[k]);
    }
  }

  lemma ApartEach(root: Entry, t: St, ops: seq<Op>)
    requires (forall op :: op in ops ==> WellFormed(op)) && Unrelated(RunOps(root, t, ops).log)
    ensures EachApart(root, t, ops)
  {
    hide RunOps;
    forall k | 0 <= k < |ops|
      ensures NewApart(RunOps(root, t, ops[..k + 1]).log, |RunOps(root, t, ops[..k]).log|)
    {
      RunLogGrows(root, t, ops, k + 1);
      PrefixApart(RunOps(root, t, ops[..k + 1]).log, RunOps(root, t, ops).log, |RunOps(root, t, ops[..k]).log|);
    }
  }

  lemma PrefixApart(log: seq<Backup>, whole: seq<Backup>, n: nat)
    requires log <= whole && Unrelated(whole)
    ensures NewApart(log, n)
  {
    forall i, j | n <= i < j < |log|
      ensures !Related(log[i].gpath, log[j].gpath)
    {
      assert log[i] == whole[i] && log[j] == whole[j];
    }
  }

  /** A restorable request leaves the tree as it was when it is rolled back. */
  lemma Restores(root: Entry, write: Writer, found: Finder, start: ObjSt, edits: seq<Edit>, st: ObjSt, results: seq<Outcome>,
      ops: seq<Op>)
    requires Progress(root, write, found, start, edits, st, results, ops) && FindsThere(found)
    requires start.log == [] && !start.failed && Sane(root, write, start.heap, start.root, edits)
    requires Restorable(root, TreeFrom(start.heap, [], start.root), ops)
    ensures TreeFrom(RevertAll(root, st.heap, st.root, st.log), [], st.root) == TreeFrom(start.heap, [], start.root)
  {
    hide *;
    SaneParts(root, write, start.heap, start.root, edits);
    ProgressParts(root, write, found, start, edits, st, results, ops);
    var t0 := TreeFrom(start.heap, [], start.root);
    var ts := RunOps(root, St(t0, [], false), ops);
    RestorableParts(root, t0, ops);
    ApartIs(t0, ts.log);
    ApartEach(root, St(t0, [], false), ops);
    ApartKeepPlace(root, ts.log);
    RequestReady(root, write, found, start, St(t0, [], false), edits, st, results, ops, |ops|);
    assert ops[..|ops|] == ops && start == ObjSt(start.heap, start.root, [], false);
    TreeAt(start.heap, [], start.root);
    ShowsIf(start.heap, start.root, t0);
    RequestRefines(root, write, start.heap, start.root, t0, ops);
    RollbackRestores(root, t0, ops, ts);
    var after := RevertAll(root, st.heap, st.root, st.log);
    TreeAt(after, [], st.root);
    ShowsAt(after, st.root, t0);
    SameMap(TreeFrom(after, [], st.root), t0);
  }

  lemma SaneParts(root: Entry, write: Writer, h: Heap, r: nat, edits: seq<Edit>)
    requires Sane(root, write, h, r, edits)
    ensures Sound(h) && ([], r) in h.objs && Writes(root, write)
    ensures forall e :: e in edits ==> Fits(e.full.path, e.full.value)
  {
  }

  lemma ProgressParts(root: Entry, write: Writer, found: Finder, start: ObjSt, edits: seq<Edit>, st: ObjSt,
      results: seq<Outcome>, ops: seq<Op>)
    requires Progress(root, write, found, start, edits, st, results, ops)
    ensures (forall op :: op in ops ==> WellFormed(op)) && st == TakeOps(root, write, start, ops)
  {
  }

  lemma RestorableParts(root: Entry, t0: Tree, ops: seq<Op>)
    requires (forall op :: op in ops ==> WellFormed(op)) && Restorable(root, t0, ops)
    ensures var st := RunOps(root, St(t0, [], false), ops);
            WellRun(root, t0, ops, st) && TargetsApart(t0, st.log) && forall b :: b in st.log ==> !Sticks(root, b)
  {
  }

  // ---------------------------------------------------------------- what is listed for an old value

  /** The nodes that an old value lists, on the objects and on the tree. */
  lemma OldListAlike(below: (Tree, Path) -> seq<S.Node>, h: Heap, r: nat, t: Tree, b: Backup, c: Item)
    requires ListsBelow(below) && Sound(h) && ([], r) in h.objs && Shows(h, r, t) && Mirror(h, r, b, c) && c.value.Pointer?
    requires b.held.Live? ==> InItsPlace(h, r, c) && !IsLeaf(t, b.gpath)
    ensures below(TreeFrom(h, ToRoute(c.gpath), c.value.n), c.gpath) == OldNodes(below, t, b.held, b.gpath)
  {
    hide *;
    var p, n := c.gpath, c.value.n;
    var seen := TreeFrom(h, ToRoute(p), n);
    MirrorPointer(h, r, b, c);
    if b.held.Live? {
      PlaceOf(h, r, c);
      LeadsInside(h, [], r, ToRoute(p));
      SeenBelow(h, r, p, n);
      NotLeafSeenAt(h, r, t, p);
      ShowsAt(h, r, t);
    } else {
      LooseNoLeaf(h, r, p, n, b.held.cells);
    }
    TreeAt(h, ToRoute(p), n);
    SameListed(below, seen, if b.held.Live? then t else b.held.cells, p);
    OldNodesIs(below, t, b.held, p);
  }

  lemma MirrorPointer(h: Heap, r: nat, b: Backup, c: Item)
    requires Mirror(h, r, b, c) && c.value.Pointer?
    ensures c.gpath == b.gpath && (ToRoute(c.gpath), c.value.n) in h.objs && !b.held.Nil?
    ensures b.held.Snapshot? ==>
              && Loose(h, r, b.gpath, c.value.n, b.held.cells)
              && forall q :: b.gpath <= q ==> Sees(h, ToRoute(b.gpath), c.value.n, q) == At(b.held.cells, q)
  {
  }

  lemma SameListed(below: (Tree, Path) -> seq<S.Node>, a: Tree, b: Tree, p: Path)
    requires ListsBelow(below) && forall q :: p <= q ==> At(a, q) == At(b, q)
    ensures below(a, p) == below(b, p)
  {
    forall q
      ensures At(Sub(a, p), q) == At(Sub(b, p), q)
    {
      assert p <= q ==> At(a, q) == At(b, q);
    }
    SameMap(Sub(a, p), Sub(b, p));
    assert below(Sub(a, p), p) == below(a, p) && below(Sub(b, p), p) == below(b, p);
  }

  lemma OldNodesIs(below: (Tree, Path) -> seq<S.Node>, t: Tree, held: Held, p: Path)
    ensures held.Live? ==> OldNodes(below, t, held, p) == below(t, p)
    ensures held.Snapshot? && !IsLeaf(held.cells, p) ==> OldNodes(below, t, held, p) == below(held.cells, p)
  {
  }
}
