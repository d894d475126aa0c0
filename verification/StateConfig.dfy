/** How the difference between two lists of nodes is pushed to an external store through its callbacks
    (executeStateConfig in gnmi/model/set.go and Load in gnmi/model/model.go). */
module StateConfig {
  import opened Text

  /** A node with its value as text. */
  datatype Node = Node(path: string, value: string)

  datatype Call = Start | Delete(path: string) | Replace(path: string, value: string) | Create(path: string, value: string) | End

  type Data = map<string, string>

  /** What one accepted call does to the store; removes(d, p) says that deleting d takes p with it. */
  function After(data: Data, c: Call, removes: (string, string) -> bool): Data {
    match c
    case Delete(d) => map p | p in data && p != d && !removes(d, p) :: data[p]
    case Replace(p, v) => data[p := v]
    case Create(p, v) => data[p := v]
    case Start => data
    case End => data
  }

  function AfterAll(data: Data, calls: seq<Call>, removes: (string, string) -> bool): Data {
    if calls == [] then data else After(AfterAll(data, Init(calls), removes), Last(calls), removes)
  }

  function Paths(l: seq<Node>): set<string> {
    set n | n in l :: n.path
  }

  /** The deletes: the old nodes that the new list does not have. */
  function Deletes(cur: seq<Node>, keep: set<string>): seq<Call> {
    if cur == [] then []
    else Deletes(Init(cur), keep) + if Last(cur).path in keep then [] else [Delete(Last(cur).path)]
  }

  /** The writes: every new node, replaced where the old list has its path. */
  function Writes(new_: seq<Node>, had: set<string>): seq<Call> {
    if new_ == [] then []
    else
      var n := Last(new_);
      Writes(Init(new_), had) + [if n.path in had then Replace(n.path, n.value) else Create(n.path, n.value)]
  }

  /** All deletes come before all writes. */
  function Script(cur: seq<Node>, new_: seq<Node>): seq<Call> {
    Deletes(cur, Paths(new_)) + Writes(new_, Paths(cur))
  }

  // ---------------------------------------------------------------- what the calls do to the store

  /** The value that a list gives to a path: of several nodes with the same path, the last one. */
  function LastValue(l: seq<Node>, p: string): Option<string> {
    if l == [] then None else if Last(l).path == p then Some(Last(l).value) else LastValue(Init(l), p)
  }

  /** Deleting the node d takes p away. */
  predicate Takes(d: string, p: string, removes: (string, string) -> bool) {
    d == p || removes(d, p)
  }

  /** Some node that is only in the old list takes p away. */
  predicate Dropped(cur: seq<Node>, keep: set<string>, p: string, removes: (string, string) -> bool) {
    exists n :: n in cur && n.path !in keep && Takes(n.path, p, removes)
  }

  lemma {:induction false} AfterAllConcat(data: Data, a: seq<Call>, b: seq<Call>, removes: (string, string) -> bool)
    ensures AfterAll(data, a + b, removes) == AfterAll(AfterAll(data, a, removes), b, removes)
  {
    if b == [] {
      assert a + b == a;
    } else {
      assert Init(a + b) == a + Init(b) && Last(a + b) == Last(b);
      AfterAllConcat(data, a, Init(b), removes);
    }
  }

  lemma DroppedMore(cur: seq<Node>, keep: set<string>, p: string, removes: (string, string) -> bool)
    requires cur != []
    ensures Dropped(cur, keep, p, removes)
            <==> Dropped(Init(cur), keep, p, removes) || (Last(cur).path !in keep && Takes(Last(cur).path, p, removes))
  {
    assert cur == Init(cur) + [Last(cur)];
  }

  lemma {:induction false} DeletesEffect(data: Data, cur: seq<Node>, keep: set<string>, p: string,
      removes: (string, string) -> bool)
    ensures At(AfterAll(data, Deletes(cur, keep), removes), p)
            == if Dropped(cur, keep, p, removes) then None else At(data, p)
  {
    if cur != [] {
      DeletesEffect(data, Init(cur), keep, p, removes);
      DroppedMore(cur, keep, p, removes);
      AfterOne(data, Deletes(Init(cur), keep), Delete(Last(cur).path), removes);
      assert Deletes(Init(cur), keep) + [] == Deletes(Init(cur), keep);
    }
  }

  lemma AfterOne(data: Data, calls: seq<Call>, c: Call, removes: (string, string) -> bool)
    ensures AfterAll(data, calls + [c], removes) == After(AfterAll(data, calls, removes), c, removes)
  {
    assert Init(calls + [c]) == calls;
  }

  lemma {:induction false} WritesEffect(data: Data, new_: seq<Node>, had: set<string>, p: string,
      removes: (string, string) -> bool)
    ensures At(AfterAll(data, Writes(new_, had), removes), p)
            == if LastValue(new_, p).Some? then LastValue(new_, p) else At(data, p)
  {
    if new_ != [] {
      WritesEffect(data, Init(new_), had, p, removes);
      AfterOne(data, Writes(Init(new_), had), Last(Writes(new_, had)), removes);
    }
  }

  /** What the whole script leaves at any path, whatever a delete takes with it. */
  lemma ScriptEffect(data: Data, cur: seq<Node>, new_: seq<Node>, p: string, removes: (string, string) -> bool)
    ensures At(AfterAll(data, Script(cur, new_), removes), p)
            == if LastValue(new_, p).Some? then LastValue(new_, p)
               else if Dropped(cur, Paths(new_), p, removes) then None
               else At(data, p)
  {
    var deletes := Deletes(cur, Paths(new_));
    AfterAllConcat(data, deletes, Writes(new_, Paths(cur)), removes);
    DeletesEffect(data, cur, Paths(new_), p, removes);
    WritesEffect(AfterAll(data, deletes, removes), new_, Paths(cur), p, removes);
  }

  /** In the part of the store that the predicate names, there are exactly the nodes of the list. */
  ghost predicate Agrees(data: Data, l: seq<Node>, part: string -> bool) {
    forall p :: part(p) ==> At(data, p) == LastValue(l, p)
  }

  lemma {:induction false} LastValueListed(l: seq<Node>, p: string)
    ensures LastValue(l, p).Some? <==> p in Paths(l)
  {
    if l != [] {
      assert l == Init(l) + [Last(l)];
      LastValueListed(Init(l), p);
    }
  }

  /** A part of the store that held exactly the old nodes holds exactly the new ones, and the rest is as it was,
      but for what the store takes away with a deleted node. */
  lemma PushesNewState(data: Data, cur: seq<Node>, new_: seq<Node>, part: string -> bool, removes: (string, string) -> bool)
    requires Agrees(data, cur, part)
    requires forall n :: n in new_ ==> part(n.path)
    ensures Agrees(AfterAll(data, Script(cur, new_), removes), new_, part)
    ensures forall p :: !part(p) && !Dropped(cur, Paths(new_), p, removes)
                        ==> At(AfterAll(data, Script(cur, new_), removes), p) == At(data, p)
  {
    var after := AfterAll(data, Script(cur, new_), removes);
    forall p
      ensures part(p) ==> At(after, p) == LastValue(new_, p)
      ensures !part(p) && !Dropped(cur, Paths(new_), p, removes) ==> At(after, p) == At(data, p)
    {
      ScriptEffect(data, cur, new_, p, removes);
      LastValueListed(new_, p);
      if p in Paths(cur) && p !in Paths(new_) {
        var n :| n in cur && n.path == p;
        assert Takes(n.path, p, removes);
        assert Dropped(cur, Paths(new_), p, removes);
      }
      LastValueListed(cur, p);
    }
  }

  /** When the store held other nodes than the push takes for the old ones: afterwards it holds exactly the new
      ones if and only if each node it had is a new one too, or goes with a deleted one. */
  lemma PushesNewStateExact(data: Data, was: seq<Node>, cur: seq<Node>, new_: seq<Node>, part: string -> bool,
      removes: (string, string) -> bool)
    requires Agrees(data, was, part)
    requires forall n :: n in new_ ==> part(n.path)
    ensures Agrees(AfterAll(data, Script(cur, new_), removes), new_, part)
            <==> forall p :: p in Paths(was) && part(p) && p !in Paths(new_) ==> Dropped(cur, Paths(new_), p, removes)
  {
    hide AfterAll, Script, Paths, LastValue, Dropped;
    var after := AfterAll(data, Script(cur, new_), removes);
    forall p
      ensures part(p) ==> (At(after, p) == LastValue(new_, p)
                           <==> (p in Paths(was) && p !in Paths(new_) ==> Dropped(cur, Paths(new_), p, removes)))
    {
      ScriptEffect(data, cur, new_, p, removes);
      LastValueListed(new_, p);
      LastValueListed(was, p);
    }
  }

  predicate Distinct(l: seq<Node>) {
    forall i, j :: 0 <= i < j < |l| ==> l[i].path != l[j].path
  }

  /** A node is created only where the store has nothing. */
  lemma CreatesAreNew(data: Data, cur: seq<Node>, new_: seq<Node>, k: nat, part: string -> bool,
      removes: (string, string) -> bool)
    requires Agrees(data, cur, part) && Distinct(new_) && k < |new_|
    requires part(new_[k].path) && new_[k].path !in Paths(cur)
    ensures At(AfterAll(data, Deletes(cur, Paths(new_)) + Writes(new_[..k], Paths(cur)), removes), new_[k].path) == None
  {
    var deletes, p := Deletes(cur, Paths(new_)), new_[k].path;
    AfterAllConcat(data, deletes, Writes(new_[..k], Paths(cur)), removes);
    WritesEffect(AfterAll(data, deletes, removes), new_[..k], Paths(cur), p, removes);
    DeletesEffect(data, cur, Paths(new_), p, removes);
    LastValueListed(new_[..k], p);
    LastValueListed(cur, p);
  }

  /** Which calls a push makes: a node only in the old list is deleted, one only in the new list is created, and one in both
      is replaced. */
  lemma CallsExact(cur: seq<Node>, new_: seq<Node>, c: Call)
    ensures c in Script(cur, new_)
            <==> match c
                 case Delete(p) => (exists n :: n in cur && n.path == p) && !exists n :: n in new_ && n.path == p
                 case Replace(p, v) => Node(p, v) in new_ && exists n :: n in cur && n.path == p
                 case Create(p, v) => Node(p, v) in new_ && !exists n :: n in cur && n.path == p
                 case Start => false
                 case End => false
  {
    hide *;
    ScriptIs(cur, new_);
    DeletesExact(cur, Paths(new_), c);
    WritesExact(new_, Paths(cur), c);
    if c.Delete? || c.Replace? || c.Create? {
      PathsHas(cur, c.path);
      PathsHas(new_, c.path);
    }
  }

  lemma ScriptIs(cur: seq<Node>, new_: seq<Node>)
    ensures Script(cur, new_) == Deletes(cur, Paths(new_)) + Writes(new_, Paths(cur))
  {
  }

  lemma PathsHas(l: seq<Node>, p: string)
    ensures p in Paths(l) <==> exists n :: n in l && n.path == p
  {
  }

  lemma {:induction false} DeletesExact(cur: seq<Node>, keep: set<string>, c: Call)
    ensures c in Deletes(cur, keep) <==> c.Delete? && c.path !in keep && exists n :: n in cur && n.path == c.path
  {
    if cur != [] {
      DeletesExact(Init(cur), keep, c);
      assert cur == Init(cur) + [Last(cur)];
      assert Last(cur) in cur;
    }
  }

  lemma {:induction false} WritesExact(new_: seq<Node>, had: set<string>, c: Call)
    ensures c in Writes(new_, had)
            <==> || (c.Replace? && Node(c.path, c.value) in new_ && c.path in had)
                 || (c.Create? && Node(c.path, c.value) in new_ && c.path !in had)
  {
    if new_ != [] {
      WritesExact(Init(new_), had, c);
      assert new_ == Init(new_) + [Last(new_)];
    }
  }

  // ---------------------------------------------------------------- the store and its answers

  /** The external store. It accepts or refuses the n-th call as answers(n) says, and what a refused call does is unknown. */
  class ExternalStore {
    const answers: nat -> bool
    const removes: (string, string) -> bool
    var data: Data
    var calls: seq<Call>

    constructor (answers: nat -> bool, removes: (string, string) -> bool, data: Data)
      ensures this.answers == answers && this.removes == removes && this.data == data && calls == []
    {
      this.answers, this.removes, this.data, this.calls := answers, removes, data, [];
    }

    method Request(c: Call) returns (ok: bool)
      modifies this
      ensures calls == old(calls) + [c]
      ensures ok == answers(|old(calls)|)
      ensures ok ==> data == After(old(data), c, removes)
    {
      ok := answers(|calls|);
      calls := calls + [c];
      if ok {
        data := After(data, c, removes);
      } else {
        data := *;
      }
    }
  }

  /** The k calls from the base-th on are accepted. */
  ghost predicate AcceptedUpTo(answers: nat -> bool, base: nat, k: nat) {
    forall i :: base <= i < base + k ==> answers(i)
  }

  /** The call after the first k is the first one that is refused. */
  ghost predicate Refused(answers: nat -> bool, base: nat, k: nat) {
    AcceptedUpTo(answers, base, k) && !answers(base + k)
  }

  /** The calls of one push: they begin with Start, end with the one End there is, and stop at the first refusal. */
  ghost predicate Pushed(answers: nat -> bool, before: seq<Call>, after: seq<Call>, script: seq<Call>, ok: bool) {
    exists n :: 0 <= n <= |script| && PushedFirst(answers, before, after, script, ok, n)
  }

  ghost predicate PushedFirst(answers: nat -> bool, before: seq<Call>, after: seq<Call>, script: seq<Call>, ok: bool,
      n: nat)
    requires n <= |script|
  {
    && after == before + [Start] + script[..n] + [End]
    && (ok ==> n == |script| && AcceptedUpTo(answers, |before|, n + 2))
    && (!ok ==> Refused(answers, |before|, n) || (n == |script| && Refused(answers, |before|, n + 1)))
  }

  /** mapDataAndPath keeps the first node of each path. */
  method MapDataAndPath(l: seq<Node>) returns (m: map<string, Node>)
    ensures m.Keys == Paths(l) && EachFirst(l, m)
  {
    m := map[];
    for i := 0 to |l|
      invariant m.Keys == Paths(l[..i]) && EachFirst(l, m)
    {
      assert l[..i + 1] == l[..i] + [l[i]];
      if l[i].path !in m {
        FirstHere(l, i);
        m := m[l[i].path := l[i]];
      }
    }
    assert l[..|l|] == l;
  }

  predicate First(l: seq<Node>, p: string, i: nat)
    requires i < |l|
  {
    l[i].path == p && forall j :: 0 <= j < i ==> l[j].path != p
  }

  /** Every path leads to the first node that has it. */
  ghost predicate EachFirst(l: seq<Node>, m: map<string, Node>) {
    forall p :: p in m ==> exists i :: 0 <= i < |l| && l[i] == m[p] && First(l, p, i)
  }

  lemma FirstHere(l: seq<Node>, i: nat)
    requires i < |l| && l[i].path !in Paths(l[..i])
    ensures First(l, l[i].path, i)
  {
    forall j | 0 <= j < i
      ensures l[j].path != l[i].path
    {
      assert l[..i][j] in l[..i];
    }
  }

  lemma DeletesSnoc(cur: seq<Node>, i: nat, keep: set<string>)
    requires i < |cur|
    ensures Deletes(cur[..i + 1], keep)
            == if cur[i].path in keep then Deletes(cur[..i], keep) else Deletes(cur[..i], keep) + [Delete(cur[i].path)]
  {
    assert Init(cur[..i + 1]) == cur[..i];
    assert Deletes(cur[..i], keep) + [] == Deletes(cur[..i], keep);
  }

  lemma WritesSnoc(new_: seq<Node>, i: nat, had: set<string>)
    requires i < |new_|
    ensures Writes(new_[..i + 1], had)
            == Writes(new_[..i], had)
               + [if new_[i].path in had then Replace(new_[i].path, new_[i].value) else Create(new_[i].path, new_[i].value)]
  {
    assert Init(new_[..i + 1]) == new_[..i];
  }

  lemma {:induction false} DeletesPrefix(cur: seq<Node>, i: nat, keep: set<string>)
    requires i <= |cur|
    ensures Deletes(cur[..i], keep) <= Deletes(cur, keep)
    decreases |cur| - i
  {
    if i < |cur| {
      DeletesSnoc(cur, i, keep);
      DeletesPrefix(cur, i + 1, keep);
    } else {
      assert cur[..i] == cur;
    }
  }

  lemma {:induction false} WritesPrefix(new_: seq<Node>, i: nat, had: set<string>)
    requires i <= |new_|
    ensures Writes(new_[..i], had) <= Writes(new_, had)
    decreases |new_| - i
  {
    if i < |new_| {
      WritesSnoc(new_, i, had);
      WritesPrefix(new_, i + 1, had);
    } else {
      assert new_[..i] == new_;
    }
  }

  /** The calls after Start are the first ones of the script, all accepted, and the store is what they make of it. */
  ghost predicate Under(store: ExternalStore, before: seq<Call>, data: Data, done: seq<Call>)
    reads store
  {
    && store.calls == before + [Start] + done
    && AcceptedUpTo(store.answers, |before|, |done| + 1)
    && store.data == AfterAll(data, done, store.removes)
  }

  method Step(store: ExternalStore, c: Call, ghost before: seq<Call>, ghost data: Data, ghost done: seq<Call>,
      ghost script: seq<Call>)
    returns (ok: bool)
    requires Under(store, before, data, done) && done + [c] <= script
    modifies store
    ensures ok ==> Under(store, before, data, done + [c])
    ensures !ok ==> Pushed(store.answers, before, store.calls, script, false)
  {
    AfterOne(data, done, c, store.removes);
    ok := store.Request(c);
    assert before + [Start] + (done + [c]) == before + [Start] + done + [c];
    if !ok {
      var _ := store.Request(End);
      assert script[..|done| + 1] == done + [c];
      assert PushedFirst(store.answers, before, store.calls, script, false, |done| + 1);
    }
  }

  lemma StartRefused(answers: nat -> bool, before: seq<Call>, script: seq<Call>)
    requires !answers(|before|)
    ensures Pushed(answers, before, before + [Start] + [End], script, false)
  {
    assert before + [Start] + script[..0] + [End] == before + [Start] + [End];
    assert PushedFirst(answers, before, before + [Start] + [End], script, false, 0);
  }

  lemma EndReached(answers: nat -> bool, before: seq<Call>, script: seq<Call>, ok: bool)
    requires AcceptedUpTo(answers, |before|, |script| + 1) && ok == answers(|before| + |script| + 1)
    ensures Pushed(answers, before, before + [Start] + script + [End], script, ok)
  {
    assert script[..|script|] == script;
    assert PushedFirst(answers, before, before + [Start] + script + [End], script, ok, |script|);
  }

  method PushDeletes(store: ExternalStore, curlist: seq<Node>, new_: map<string, Node>, ghost before: seq<Call>,
      ghost data: Data, ghost script: seq<Call>)
    returns (ok: bool)
    requires Under(store, before, data, []) && Deletes(curlist, new_.Keys) <= script
    modifies store
    ensures ok ==> Under(store, before, data, Deletes(curlist, new_.Keys))
    ensures !ok ==> Pushed(store.answers, before, store.calls, script, false)
  {
    for i := 0 to |curlist|
      invariant Under(store, before, data, Deletes(curlist[..i], new_.Keys))
    {
      DeletesSnoc(curlist, i, new_.Keys);
      DeletesPrefix(curlist, i + 1, new_.Keys);
      if curlist[i].path !in new_ {
        ok := Step(store, Delete(curlist[i].path), before, data, Deletes(curlist[..i], new_.Keys), script);
        if !ok {
          return;
        }
      }
    }
    assert curlist[..|curlist|] == curlist;
    ok := true;
  }

  method PushWrites(store: ExternalStore, newlist: seq<Node>, cur: map<string, Node>, ghost before: seq<Call>,
      ghost data: Data, ghost deletes: seq<Call>)
    returns (ok: bool)
    requires Under(store, before, data, deletes)
    modifies store
    ensures ok ==> Under(store, before, data, deletes + Writes(newlist, cur.Keys))
    ensures !ok ==> Pushed(store.answers, before, store.calls, deletes + Writes(newlist, cur.Keys), false)
  {
    ghost var script := deletes + Writes(newlist, cur.Keys);
    assert deletes + Writes(newlist[..0], cur.Keys) == deletes;
    hide Pushed;
    for i := 0 to |newlist|
      invariant Under(store, before, data, deletes + Writes(newlist[..i], cur.Keys))
    {
      WritesSnoc(newlist, i, cur.Keys);
      WritesPrefix(newlist, i + 1, cur.Keys);
      var n := newlist[i];
      var c := if n.path in cur then Replace(n.path, n.value) else Create(n.path, n.value);
      ConcatAssoc(deletes, Writes(newlist[..i], cur.Keys), [c]);
      ok := Step(store, c, before, data, deletes + Writes(newlist[..i], cur.Keys), script);
      if !ok {
        return;
      }
    }
    assert newlist[..|newlist|] == newlist;
    ok := true;
  }

  method Begin(store: ExternalStore, ghost script: seq<Call>) returns (ok: bool)
    modifies store
    ensures ok ==> Under(store, old(store.calls), old(store.data), [])
    ensures !ok ==> Pushed(store.answers, old(store.calls), store.calls, script, false)
  {
    ghost var before := store.calls;
    ok := store.Request(Start);
    assert before + [Start] + [] == before + [Start];
    if !ok {
      var _ := store.Request(End);
      StartRefused(store.answers, before, script);
    }
  }

  method Finish(store: ExternalStore, ghost before: seq<Call>, ghost data: Data, ghost script: seq<Call>) returns (ok: bool)
    requires Under(store, before, data, script)
    modifies store
    ensures Pushed(store.answers, before, store.calls, script, ok)
    ensures ok ==> store.data == AfterAll(data, script, store.removes)
  {
    ok := store.Request(End);
    EndReached(store.answers, before, script, ok);
  }

  /** executeStateConfig, with the two lists that ListAll gives. */
  method ExecuteStateConfig(store: ExternalStore, curlist: seq<Node>, newlist: seq<Node>) returns (ok: bool)
    modifies store
    ensures Pushed(store.answers, old(store.calls), store.calls, Script(curlist, newlist), ok)
    ensures ok ==> store.data == AfterAll(old(store.data), Script(curlist, newlist), store.removes)
  {
    var cur := MapDataAndPath(curlist);
    var new_ := MapDataAndPath(newlist);
    ghost var before, data := store.calls, store.data;
    ghost var script, deletes := Script(curlist, newlist), Deletes(curlist, new_.Keys);
    assert script == deletes + Writes(newlist, cur.Keys);
    hide *;
    ok := Begin(store, script);
    if ok {
      ok := PushDeletes(store, curlist, new_, before, data, script);
      if ok {
        ok := PushWrites(store, newlist, cur, before, data, deletes);
        if ok {
          ok := Finish(store, before, data, script);
        }
      }
    }
  }

  /** A push calls Start once, before everything else, and End once, after everything else, on every exit. */
  lemma PushBrackets(answers: nat -> bool, before: seq<Call>, after: seq<Call>, cur: seq<Node>, new_: seq<Node>, ok: bool)
    requires Pushed(answers, before, after, Script(cur, new_), ok)
    ensures |after| >= |before| + 2 && after[..|before|] == before
    ensures after[|before|] == Start && Last(after) == End
    ensures forall i :: |before| < i < |after| - 1 ==> after[i] != Start && after[i] != End
  {
    var n :| 0 <= n <= |Script(cur, new_)| && PushedFirst(answers, before, after, Script(cur, new_), ok, n);
    NoBrackets(cur, new_);
    forall i | |before| < i < |after| - 1
      ensures after[i] != Start && after[i] != End
    {
      assert after[i] == Script(cur, new_)[..n][i - |before| - 1];
      assert after[i] in Script(cur, new_);
    }
  }

  lemma {:induction false} NoBracketsInDeletes(cur: seq<Node>, keep: set<string>)
    ensures forall c :: c in Deletes(cur, keep) ==> c.Delete?
  {
    if cur != [] {
      NoBracketsInDeletes(Init(cur), keep);
    }
  }

  lemma {:induction false} NoBracketsInWrites(new_: seq<Node>, had: set<string>)
    ensures forall c :: c in Writes(new_, had) ==> c.Replace? || c.Create?
  {
    if new_ != [] {
      NoBracketsInWrites(Init(new_), had);
    }
  }

  lemma NoBrackets(cur: seq<Node>, new_: seq<Node>)
    ensures forall c :: c in Script(cur, new_) ==> c != Start && c != End
  {
    NoBracketsInDeletes(cur, Paths(new_));
    NoBracketsInWrites(new_, Paths(cur));
  }

  /** Where the store is between Start and End. */
  datatype Phase = Idle | Busy | Broken

  function PhaseAfter(calls: seq<Call>): Phase {
    if calls == [] then Idle
    else
      match (PhaseAfter(Init(calls)), Last(calls))
      case (Idle, Start) => Busy
      case (Busy, End) => Idle
      case (Busy, Delete(_)) => Busy
      case (Busy, Replace(_, _)) => Busy
      case (Busy, Create(_, _)) => Busy
      case _ => Broken
  }

  predicate NoBracketIn(calls: seq<Call>) {
    forall i :: 0 <= i < |calls| ==> calls[i] != Start && calls[i] != End
  }

  lemma {:induction false} StaysBusy(calls: seq<Call>, mid: seq<Call>)
    requires PhaseAfter(calls) == Busy && NoBracketIn(mid)
    ensures PhaseAfter(calls + mid) == Busy
  {
    if mid == [] {
      assert calls + mid == calls;
    } else {
      StaysBusy(calls, Init(mid));
      assert Init(calls + mid) == calls + Init(mid) && Last(calls + mid) == Last(mid);
    }
  }

  /** A store that is idle before a push is idle after it, whatever it refuses. */
  lemma PushKeepsIdle(answers: nat -> bool, before: seq<Call>, after: seq<Call>, cur: seq<Node>, new_: seq<Node>, ok: bool)
    requires PhaseAfter(before) == Idle && Pushed(answers, before, after, Script(cur, new_), ok)
    ensures PhaseAfter(after) == Idle
  {
    hide *;
    var script := Script(cur, new_);
    var n := PushedSome(answers, before, after, script, ok);
    NoBrackets(cur, new_);
    PrefixNoBrackets(script, n);
    Started(before);
    StaysBusy(before + [Start], script[..n]);
    Ended(before + [Start] + script[..n]);
  }

  lemma PushedSome(answers: nat -> bool, before: seq<Call>, after: seq<Call>, script: seq<Call>, ok: bool) returns (n: nat)
    requires Pushed(answers, before, after, script, ok)
    ensures n <= |script| && after == before + [Start] + script[..n] + [End]
  {
    n :| 0 <= n <= |script| && PushedFirst(answers, before, after, script, ok, n);
  }

  lemma PrefixNoBrackets(script: seq<Call>, n: nat)
    requires n <= |script| && forall c :: c in script ==> c != Start && c != End
    ensures NoBracketIn(script[..n])
  {
    assert forall i :: 0 <= i < n ==> script[i] in script;
  }

  lemma Started(calls: seq<Call>)
    requires PhaseAfter(calls) == Idle
    ensures PhaseAfter(calls + [Start]) == Busy
  {
    assert Init(calls + [Start]) == calls;
  }

  lemma Ended(calls: seq<Call>)
    requires PhaseAfter(calls) == Busy
    ensures PhaseAfter(calls + [End]) == Idle
  {
    assert Init(calls + [End]) == calls;
  }

  // ---------------------------------------------------------------- the startup push

  /** The first node of every path of the list, in some order: a walk over what mapDataAndPath makes of it. */
  ghost predicate Walk(nodes: seq<Node>, list: seq<Node>) {
    Distinct(nodes) && Paths(nodes) == Paths(list) && forall i :: 0 <= i < |nodes| ==> IsFirst(list, nodes[i])
  }

  ghost predicate IsFirst(list: seq<Node>, n: Node) {
    exists i :: 0 <= i < |list| && list[i] == n && First(list, n.path, i)
  }

  /** A walk over the map that has come so far. */
  ghost predicate WalkPart(nodes: seq<Node>, m: map<string, Node>) {
    Distinct(nodes) && forall i :: 0 <= i < |nodes| ==> nodes[i].path in m && m[nodes[i].path] == nodes[i]
  }

  lemma WalkMore(nodes: seq<Node>, m: map<string, Node>, p: string)
    requires WalkPart(nodes, m) && p in m && m[p].path == p && p !in Paths(nodes)
    ensures WalkPart(nodes + [m[p]], m) && Paths(nodes + [m[p]]) == Paths(nodes) + {p}
  {
    forall i | 0 <= i < |nodes|
      ensures nodes[i].path != p
    {
      assert nodes[i] in nodes;
    }
    PathsSnoc(nodes, m[p]);
  }

  lemma PathsSnoc(nodes: seq<Node>, n: Node)
    ensures Paths(nodes + [n]) == Paths(nodes) + {n.path}
  {
    assert forall x :: x in nodes + [n] <==> x in nodes || x == n;
  }

  ghost predicate OwnPaths(m: map<string, Node>) {
    forall p :: p in m ==> m[p].path == p
  }

  /** Any walk that has begun can be ended. */
  lemma {:induction false} WalkOn(nodes: seq<Node>, m: map<string, Node>, todo: set<string>) returns (rest: seq<Node>)
    requires WalkPart(nodes, m) && OwnPaths(m) && Partition(m.Keys, Paths(nodes), todo)
    ensures WalkPart(nodes + rest, m) && Paths(nodes + rest) == m.Keys
    decreases |todo|
  {
    hide Paths, WalkPart;
    if todo == {} {
      rest := [];
      assert nodes + rest == nodes;
      PartitionEnd(m.Keys, Paths(nodes));
    } else {
      var p :| p in todo;
      PartitionMore(m.Keys, Paths(nodes), todo, p);
      WalkMore(nodes, m, p);
      var more := WalkOn(nodes + [m[p]], m, todo - {p});
      rest := [m[p]] + more;
      ConcatAssoc(nodes, [m[p]], more);
    }
  }

  lemma WholeWalk(nodes: seq<Node>, m: map<string, Node>, list: seq<Node>)
    requires WalkPart(nodes, m) && Paths(nodes) == m.Keys == Paths(list) && EachFirst(list, m)
    ensures Walk(nodes, list)
  {
    forall i | 0 <= i < |nodes|
      ensures IsFirst(list, nodes[i])
    {
      var p := nodes[i].path;
      assert p in m && m[p] == nodes[i];
      var j :| 0 <= j < |list| && list[j] == m[p] && First(list, p, j);
    }
  }

  lemma FirstOwnPaths(list: seq<Node>, m: map<string, Node>)
    requires EachFirst(list, m)
    ensures OwnPaths(m)
  {
    forall p | p in m
      ensures m[p].path == p
    {
      var j :| 0 <= j < |list| && list[j] == m[p] && First(list, p, j);
    }
  }

  /** The k-th call of the script is the first one refused, and the last one made: there is no End. */
  ghost predicate CutOff(answers: nat -> bool, before: seq<Call>, calls: seq<Call>, script: seq<Call>) {
    exists k :: 1 <= k <= |script| && Refused(answers, |before|, k) && calls == before + [Start] + script[..k]
  }

  /** The calls of a startup push. */
  ghost predicate LoadCalls(answers: nat -> bool, before: seq<Call>, calls: seq<Call>, script: seq<Call>, ok: bool) {
    || (!ok && !answers(|before|) && calls == before + [Start, End])
    || (!ok && CutOff(answers, before, calls, script))
    || (&& AcceptedUpTo(answers, |before|, |script| + 1) && ok == answers(|before| + |script| + 1)
        && calls == before + [Start] + script + [End])
  }

  lemma CutOffLonger(answers: nat -> bool, before: seq<Call>, calls: seq<Call>, script: seq<Call>, longer: seq<Call>)
    requires CutOff(answers, before, calls, script) && script <= longer
    ensures CutOff(answers, before, calls, longer)
  {
    var k :| 1 <= k <= |script| && Refused(answers, |before|, k) && calls == before + [Start] + script[..k];
    assert longer[..k] == script[..k];
  }

  /** One delete or write of the startup push. */
  method LoadStep(store: ExternalStore, c: Call, ghost before: seq<Call>, ghost data: Data, ghost done: seq<Call>)
    returns (ok: bool)
    requires Under(store, before, data, done)
    modifies store
    ensures ok ==> Under(store, before, data, done + [c])
    ensures !ok ==> CutOff(store.answers, before, store.calls, done + [c])
  {
    AfterOne(data, done, c, store.removes);
    ok := store.Request(c);
    assert before + [Start] + (done + [c]) == before + [Start] + done + [c];
    if !ok {
      assert (done + [c])[..|done| + 1] == done + [c];
      assert Refused(store.answers, |before|, |done| + 1);
    }
  }

  lemma DeletesMore(nodes: seq<Node>, n: Node, keep: set<string>, rest: seq<Node>)
    ensures Deletes(nodes + [n], keep) == (if n.path in keep then Deletes(nodes, keep) else Deletes(nodes, keep) + [Delete(n.path)])
    ensures Deletes(nodes + [n], keep) <= Deletes(nodes + [n] + rest, keep)
  {
    var all := nodes + [n];
    assert Init(all) == nodes && Deletes(nodes, keep) + [] == Deletes(nodes, keep);
    assert (all + rest)[..|all|] == all;
    DeletesPrefix(all + rest, |all|, keep);
  }

  lemma WritesMore(nodes: seq<Node>, n: Node, had: set<string>, rest: seq<Node>)
    ensures Writes(nodes + [n], had)
            == Writes(nodes, had) + [if n.path in had then Replace(n.path, n.value) else Create(n.path, n.value)]
    ensures Writes(nodes + [n], had) <= Writes(nodes + [n] + rest, had)
  {
    var all := nodes + [n];
    assert Init(all) == nodes;
    assert (all + rest)[..|all|] == all;
    WritesPrefix(all + rest, |all|, had);
  }

  method LoadDeletes(store: ExternalStore, cur: map<string, Node>, new_: map<string, Node>, ghost before: seq<Call>,
      ghost data: Data)
    returns (ok: bool, ghost nodes: seq<Node>)
    requires Under(store, before, data, []) && OwnPaths(cur)
    modifies store
    ensures WalkPart(nodes, cur) && Paths(nodes) == cur.Keys
    ensures ok ==> Under(store, before, data, Deletes(nodes, new_.Keys))
    ensures !ok ==> CutOff(store.answers, before, store.calls, Deletes(nodes, new_.Keys))
  {
    var todo := cur.Keys;
    nodes := [];
    NoNodes(cur, new_.Keys);
    PartitionStart(cur.Keys);
    hide *;
    while todo != {}
      invariant Partition(cur.Keys, Paths(nodes), todo) && WalkPart(nodes, cur)
      invariant Under(store, before, data, Deletes(nodes, new_.Keys))
      decreases |todo|
    {
      var p :| p in todo;
      ghost var more;
      more := DeleteStep(cur, nodes, todo, p, new_.Keys);
      var n := cur[p];
      if p !in new_ {
        ok := LoadStep(store, Delete(p), before, data, Deletes(nodes, new_.Keys));
        if !ok {
          CutOffLonger(store.answers, before, store.calls, Deletes(nodes, new_.Keys) + [Delete(p)],
                       Deletes(nodes + [n] + more, new_.Keys));
          nodes := nodes + [n] + more;
          return;
        }
      }
      nodes := nodes + [n];
      todo := todo - {p};
    }
    PartitionEnd(cur.Keys, Paths(nodes));
    ok := true;
  }

  lemma NoNodes(m: map<string, Node>, keep: set<string>)
    ensures Paths([]) == {} && WalkPart([], m) && Deletes([], keep) == [] && Writes([], keep) == []
  {
  }

  /** What one more node of the walk is for the deletes, and how the walk could go on. */
  lemma DeleteStep(cur: map<string, Node>, nodes: seq<Node>, todo: set<string>, p: string, keep: set<string>) returns (more: seq<Node>)
    requires Partition(cur.Keys, Paths(nodes), todo) && WalkPart(nodes, cur) && OwnPaths(cur) && p in todo
    ensures p in cur && |todo - {p}| < |todo|
    ensures Partition(cur.Keys, Paths(nodes + [cur[p]]), todo - {p}) && WalkPart(nodes + [cur[p]], cur)
    ensures WalkPart(nodes + [cur[p]] + more, cur) && Paths(nodes + [cur[p]] + more) == cur.Keys
    ensures Deletes(nodes + [cur[p]], keep) == (if p in keep then Deletes(nodes, keep) else Deletes(nodes, keep) + [Delete(p)])
    ensures Deletes(nodes + [cur[p]], keep) <= Deletes(nodes + [cur[p]] + more, keep)
    ensures cur[p].path == p
  {
    hide Paths, WalkPart, Deletes, Partition;
    PartitionMore(cur.Keys, Paths(nodes), todo, p);
    WalkMore(nodes, cur, p);
    more := WalkOn(nodes + [cur[p]], cur, todo - {p});
    DeletesMore(nodes, cur[p], keep, more);
  }

  method LoadWrites(store: ExternalStore, cur: map<string, Node>, new_: map<string, Node>, ghost before: seq<Call>,
      ghost data: Data, ghost deletes: seq<Call>)
    returns (ok: bool, ghost nodes: seq<Node>)
    requires Under(store, before, data, deletes) && OwnPaths(new_)
    modifies store
    ensures WalkPart(nodes, new_) && Paths(nodes) == new_.Keys
    ensures ok ==> Under(store, before, data, deletes + Writes(nodes, cur.Keys))
    ensures !ok ==> CutOff(store.answers, before, store.calls, deletes + Writes(nodes, cur.Keys))
  {
    var todo := new_.Keys;
    nodes := [];
    NoNodes(new_, cur.Keys);
    PartitionStart(new_.Keys);
    assert deletes + [] == deletes;
    hide *;
    while todo != {}
      invariant Partition(new_.Keys, Paths(nodes), todo) && WalkPart(nodes, new_)
      invariant Under(store, before, data, deletes + Writes(nodes, cur.Keys))
      decreases |todo|
    {
      var p :| p in todo;
      ghost var more;
      more := WriteStep(new_, nodes, todo, p, cur.Keys);
      var n := new_[p];
      var c := if p in cur then Replace(p, n.value) else Create(p, n.value);
      ConcatAssoc(deletes, Writes(nodes, cur.Keys), [c]);
      ok := LoadStep(store, c, before, data, deletes + Writes(nodes, cur.Keys));
      if !ok {
        PrefixAfter(deletes, Writes(nodes + [n], cur.Keys), Writes(nodes + [n] + more, cur.Keys));
        CutOffLonger(store.answers, before, store.calls, deletes + Writes(nodes + [n], cur.Keys),
                     deletes + Writes(nodes + [n] + more, cur.Keys));
        nodes := nodes + [n] + more;
        return;
      }
      nodes := nodes + [n];
      todo := todo - {p};
    }
    PartitionEnd(new_.Keys, Paths(nodes));
    ok := true;
  }

  lemma PrefixAfter(a: seq<Call>, b: seq<Call>, c: seq<Call>)
    requires b <= c
    ensures a + b <= a + c
  {
  }

  lemma WriteStep(new_: map<string, Node>, nodes: seq<Node>, todo: set<string>, p: string, had: set<string>) returns (more: seq<Node>)
    requires Partition(new_.Keys, Paths(nodes), todo) && WalkPart(nodes, new_) && OwnPaths(new_) && p in todo
    ensures p in new_ && |todo - {p}| < |todo|
    ensures Partition(new_.Keys, Paths(nodes + [new_[p]]), todo - {p}) && WalkPart(nodes + [new_[p]], new_)
    ensures WalkPart(nodes + [new_[p]] + more, new_) && Paths(nodes + [new_[p]] + more) == new_.Keys
    ensures Writes(nodes + [new_[p]], had)
            == Writes(nodes, had) + [if p in had then Replace(p, new_[p].value) else Create(p, new_[p].value)]
    ensures Writes(nodes + [new_[p]], had) <= Writes(nodes + [new_[p]] + more, had)
  {
    hide Paths, WalkPart, Writes, Partition;
    PartitionMore(new_.Keys, Paths(nodes), todo, p);
    WalkMore(nodes, new_, p);
    more := WalkOn(nodes + [new_[p]], new_, todo - {p});
    WritesMore(nodes, new_[p], had, more);
  }

  /** The push of Load, over its maps in some order of each: the same script as executeStateConfig's for the first
      nodes of the two lists, but a refused delete or write ends it without End. */
  method LoadPush(store: ExternalStore, curlist: seq<Node>, newlist: seq<Node>)
    returns (ok: bool, ghost curNodes: seq<Node>, ghost newNodes: seq<Node>)
    modifies store
    ensures Walk(curNodes, curlist) && Walk(newNodes, newlist)
    ensures LoadCalls(store.answers, old(store.calls), store.calls, Script(curNodes, newNodes), ok)
    ensures ok ==> store.data == AfterAll(old(store.data), Script(curNodes, newNodes), store.removes)
  {
    var newMap := MapDataAndPath(newlist);
    var curMap := MapDataAndPath(curlist);
    ghost var before, data := store.calls, store.data;
    hide *;
    FirstOwnPaths(curlist, curMap);
    FirstOwnPaths(newlist, newMap);
    ok := LoadBegin(store);
    if !ok {
      curNodes := AnyWalk(curMap, curlist);
      newNodes := AnyWalk(newMap, newlist);
      LoadEnded(store.answers, before, store.calls, Script(curNodes, newNodes), false);
      return;
    }
    ok, curNodes := LoadDeletes(store, curMap, newMap, before, data);
    WholeWalk(curNodes, curMap, curlist);
    if !ok {
      newNodes := AnyWalk(newMap, newlist);
      ScriptParts(curNodes, newNodes);
      CutOffLonger(store.answers, before, store.calls, Deletes(curNodes, newMap.Keys), Script(curNodes, newNodes));
      LoadEnded(store.answers, before, store.calls, Script(curNodes, newNodes), false);
      return;
    }
    ok, newNodes := LoadWrites(store, curMap, newMap, before, data, Deletes(curNodes, newMap.Keys));
    WholeWalk(newNodes, newMap, newlist);
    ScriptParts(curNodes, newNodes);
    if ok {
      ok := LoadFinish(store, before, data, Script(curNodes, newNodes));
    } else {
      LoadEnded(store.answers, before, store.calls, Script(curNodes, newNodes), false);
    }
  }

  lemma ScriptParts(cur: seq<Node>, new_: seq<Node>)
    ensures Script(cur, new_) == Deletes(cur, Paths(new_)) + Writes(new_, Paths(cur))
    ensures Deletes(cur, Paths(new_)) <= Script(cur, new_)
  {
  }

  lemma AnyWalk(m: map<string, Node>, list: seq<Node>) returns (nodes: seq<Node>)
    requires m.Keys == Paths(list) && EachFirst(list, m)
    ensures Walk(nodes, list) && Paths(nodes) == m.Keys
  {
    hide *;
    FirstOwnPaths(list, m);
    NoNodes(m, {});
    PartitionStart(m.Keys);
    nodes := WalkOn([], m, m.Keys);
    assert [] + nodes == nodes;
    WholeWalk(nodes, m, list);
  }

  lemma LoadEnded(answers: nat -> bool, before: seq<Call>, calls: seq<Call>, script: seq<Call>, ok: bool)
    requires !ok
    requires (!answers(|before|) && calls == before + [Start, End]) || CutOff(answers, before, calls, script)
    ensures LoadCalls(answers, before, calls, script, ok)
  {
  }

  method LoadBegin(store: ExternalStore) returns (ok: bool)
    modifies store
    ensures ok ==> Under(store, old(store.calls), old(store.data), [])
    ensures !ok ==> !store.answers(|old(store.calls)|) && store.calls == old(store.calls) + [Start, End]
  {
    ghost var before := store.calls;
    ok := store.Request(Start);
    assert before + [Start] + [] == before + [Start];
    if !ok {
      var _ := store.Request(End);
      assert before + [Start] + [End] == before + [Start, End];
    }
  }

  method LoadFinish(store: ExternalStore, ghost before: seq<Call>, ghost data: Data, ghost script: seq<Call>) returns (ok: bool)
    requires Under(store, before, data, script)
    modifies store
    ensures LoadCalls(store.answers, before, store.calls, script, ok)
    ensures ok ==> store.data == AfterAll(data, script, store.removes)
  {
    ok := store.Request(End);
    assert store.calls == before + [Start] + script + [End];
  }

  // ---------------------------------------------------------------- what the startup push leaves

  /** The script has one call for every path that is only in the old list, and one for every path of the new one. */
  lemma ScriptSize(cur: seq<Node>, new_: seq<Node>)
    requires Distinct(cur) && Distinct(new_)
    ensures |Script(cur, new_)| == |Paths(cur) - Paths(new_)| + |Paths(new_)|
  {
    DeletesSize(cur, Paths(new_));
    WritesSize(new_, Paths(cur));
  }

  lemma DistinctInit(nodes: seq<Node>)
    requires Distinct(nodes) && nodes != []
    ensures Distinct(Init(nodes)) && Last(nodes).path !in Paths(Init(nodes))
    ensures Paths(nodes) == Paths(Init(nodes)) + {Last(nodes).path}
  {
    assert nodes == Init(nodes) + [Last(nodes)];
    PathsSnoc(Init(nodes), Last(nodes));
    forall n | n in Init(nodes)
      ensures n.path != Last(nodes).path
    {
      var i :| 0 <= i < |nodes| - 1 && nodes[i] == n;
    }
  }

  lemma OneMoreSize(paths: set<string>, keep: set<string>, p: string)
    requires p !in paths
    ensures |paths + {p} - keep| == |paths - keep| + if p in keep then 0 else 1
  {
    assert paths + {p} - keep == if p in keep then paths - keep else (paths - keep) + {p};
  }

  lemma {:induction false} DeletesSize(cur: seq<Node>, keep: set<string>)
    requires Distinct(cur)
    ensures |Deletes(cur, keep)| == |Paths(cur) - keep|
  {
    if cur != [] {
      DistinctInit(cur);
      DeletesSize(Init(cur), keep);
      OneMoreSize(Paths(Init(cur)), keep, Last(cur).path);
    }
  }

  lemma {:induction false} WritesSize(new_: seq<Node>, had: set<string>)
    requires Distinct(new_)
    ensures |Writes(new_, had)| == |Paths(new_)|
  {
    if new_ != [] {
      DistinctInit(new_);
      WritesSize(Init(new_), had);
    }
  }

  /** One of the first n calls after Start is the first that the store refuses. */
  ghost predicate SomeRefused(answers: nat -> bool, base: nat, n: nat) {
    exists k :: 1 <= k <= n && Refused(answers, base, k)
  }

  /** The store is left waiting for an End that never comes exactly when, after Start, the first call that it
      refuses is one of the deletes and writes: one for every path of the lists. */
  lemma LoadLeavesBusy(answers: nat -> bool, before: seq<Call>, calls: seq<Call>, cur: seq<Node>, new_: seq<Node>,
      curNodes: seq<Node>, newNodes: seq<Node>, ok: bool)
    requires PhaseAfter(before) == Idle && Walk(curNodes, cur) && Walk(newNodes, new_)
    requires LoadCalls(answers, before, calls, Script(curNodes, newNodes), ok)
    ensures PhaseAfter(calls) == Busy <==> SomeRefused(answers, |before|, |Paths(cur) - Paths(new_)| + |Paths(new_)|)
    ensures PhaseAfter(calls) != Broken
  {
    hide *;
    var script := Script(curNodes, newNodes);
    WalkParts(curNodes, cur);
    WalkParts(newNodes, new_);
    ScriptSize(curNodes, newNodes);
    NoBrackets(curNodes, newNodes);
    LoadCases(answers, before, calls, script, ok);
    if !answers(|before|) {
      StartEnd(before);
      StartRefusedNone(answers, |before|, |script|);
    } else if CutOff(answers, before, calls, script) {
      CutOffBusy(answers, before, calls, script);
    } else {
      StartedBusy(before, script, |script|);
      EndIdle(before, script);
      NoneRefused(answers, |before|, |script|);
    }
  }

  lemma WalkParts(nodes: seq<Node>, list: seq<Node>)
    requires Walk(nodes, list)
    ensures Distinct(nodes) && Paths(nodes) == Paths(list)
  {
  }

  lemma LoadCases(answers: nat -> bool, before: seq<Call>, calls: seq<Call>, script: seq<Call>, ok: bool)
    requires LoadCalls(answers, before, calls, script, ok)
    ensures !answers(|before|) ==> calls == before + [Start, End]
    ensures answers(|before|) && !CutOff(answers, before, calls, script)
            ==> AcceptedUpTo(answers, |before|, |script| + 1) && calls == before + [Start] + script + [End]
  {
  }

  lemma StartRefusedNone(answers: nat -> bool, base: nat, n: nat)
    requires !answers(base)
    ensures !SomeRefused(answers, base, n)
  {
  }

  lemma CutOffBusy(answers: nat -> bool, before: seq<Call>, calls: seq<Call>, script: seq<Call>)
    requires PhaseAfter(before) == Idle && CutOff(answers, before, calls, script)
    requires forall c :: c in script ==> c != Start && c != End
    ensures PhaseAfter(calls) == Busy && SomeRefused(answers, |before|, |script|)
  {
    hide PhaseAfter, Refused;
    var k :| 1 <= k <= |script| && Refused(answers, |before|, k) && calls == before + [Start] + script[..k];
    StartedBusy(before, script, k);
  }

  lemma EndIdle(before: seq<Call>, script: seq<Call>)
    requires PhaseAfter(before + [Start] + script[..|script|]) == Busy
    ensures PhaseAfter(before + [Start] + script + [End]) == Idle
  {
    hide *;
    assert script[..|script|] == script;
    EndBusy(before + [Start] + script);
  }

  lemma EndBusy(calls: seq<Call>)
    requires PhaseAfter(calls) == Busy
    ensures PhaseAfter(calls + [End]) == Idle
  {
    assert Init(calls + [End]) == calls;
  }

  lemma NoneRefused(answers: nat -> bool, base: nat, n: nat)
    requires AcceptedUpTo(answers, base, n + 1)
    ensures !SomeRefused(answers, base, n)
  {
  }

  lemma StartEnd(before: seq<Call>)
    requires PhaseAfter(before) == Idle
    ensures PhaseAfter(before + [Start, End]) == Idle
  {
    var calls := before + [Start, End];
    assert Init(calls) == before + [Start] && Init(before + [Start]) == before;
  }

  lemma StartedBusy(before: seq<Call>, script: seq<Call>, k: nat)
    requires PhaseAfter(before) == Idle && k <= |script| && forall c :: c in script ==> c != Start && c != End
    ensures PhaseAfter(before + [Start] + script[..k]) == Busy
  {
    assert Init(before + [Start]) == before;
    forall i | 0 <= i < k
      ensures script[..k][i] != Start && script[..k][i] != End
    {
      assert script[i] in script;
    }
    StaysBusy(before + [Start], script[..k]);
  }

  /** Where the paths of the new list are distinct, the startup push and executeStateConfig leave the same store,
      in whatever order the maps are walked. */
  lemma LoadAgrees(data: Data, cur: seq<Node>, list: seq<Node>, curNodes: seq<Node>, newNodes: seq<Node>,
      removes: (string, string) -> bool)
    requires Distinct(list) && Walk(curNodes, cur) && Walk(newNodes, list)
    ensures AfterAll(data, Script(curNodes, newNodes), removes) == AfterAll(data, Script(cur, list), removes)
  {
    var a, b := AfterAll(data, Script(curNodes, newNodes), removes), AfterAll(data, Script(cur, list), removes);
    forall p
      ensures At(a, p) == At(b, p)
    {
      ScriptEffect(data, cur, list, p, removes);
      ScriptEffect(data, curNodes, newNodes, p, removes);
      SameValue(list, newNodes, p);
      SameDropped(cur, curNodes, Paths(list), p, removes);
      hide *;
    }
    SameMap(a, b);
  }

  lemma SameDropped(cur: seq<Node>, nodes: seq<Node>, keep: set<string>, p: string, removes: (string, string) -> bool)
    requires Paths(cur) == Paths(nodes)
    ensures Dropped(cur, keep, p, removes) <==> Dropped(nodes, keep, p, removes)
  {
    if Dropped(cur, keep, p, removes) {
      DroppedToo(cur, nodes, keep, p, removes);
    }
    if Dropped(nodes, keep, p, removes) {
      DroppedToo(nodes, cur, keep, p, removes);
    }
  }

  lemma DroppedToo(cur: seq<Node>, nodes: seq<Node>, keep: set<string>, p: string, removes: (string, string) -> bool)
    requires Paths(cur) == Paths(nodes) && Dropped(cur, keep, p, removes)
    ensures Dropped(nodes, keep, p, removes)
  {
    var n :| n in cur && n.path !in keep && Takes(n.path, p, removes);
    assert n.path in Paths(nodes);
    var m :| m in nodes && m.path == n.path;
  }

  lemma SameValue(list: seq<Node>, nodes: seq<Node>, p: string)
    requires Distinct(list) && Walk(nodes, list)
    ensures LastValue(list, p) == LastValue(nodes, p)
  {
    LastValueListed(list, p);
    LastValueListed(nodes, p);
    if p in Paths(list) {
      var n :| n in nodes && n.path == p;
      var i :| 0 <= i < |nodes| && nodes[i] == n;
      assert IsFirst(list, n);
      FirstIsLast(list, p, n);
      FirstIsLast(nodes, p, n);
    }
  }

  lemma {:induction false} FirstIsLast(l: seq<Node>, p: string, n: Node)
    requires Distinct(l) && n in l && n.path == p
    ensures LastValue(l, p) == Some(n.value)
  {
    assert l == Init(l) + [Last(l)];
    if Last(l).path == p {
      var i :| 0 <= i < |l| && l[i] == n;
    } else {
      FirstIsLast(Init(l), p, n);
    }
  }
}
