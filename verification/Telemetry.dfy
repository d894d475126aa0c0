/** teleCtrl (gnmi/server/subscribe.go): the index from paths to subscriptions, and the events that are built
    from the changes of one transaction and handed to the subscriptions at its end. */
module Telemetry {
  import opened Text
  import opened PathText
  import opened Schema

  type TeleID = nat

  /** The subscriptions under each path. */
  type Index = map<string, set<TeleID>>

  // ---------------------------------------------------------------- the index

  datatype Registration = Register(id: TeleID, paths: set<string>) | Unregister(id: TeleID)

  /** After these registrations the subscription is interested in the path. */
  predicate Registered(log: seq<Registration>, id: TeleID, path: string) {
    log != [] &&
    match Last(log)
    case Register(i, paths) => (i == id && path in paths) || Registered(Init(log), id, path)
    case Unregister(i) => i != id && Registered(Init(log), id, path)
  }

  predicate Under(index: Index, path: string, id: TeleID) {
    path in index && id in index[path]
  }

  /** The index has exactly the subscriptions registered under each path, and no empty set. */
  ghost predicate Agrees(index: Index, log: seq<Registration>) {
    && (forall path, id :: Under(index, path, id) <==> Registered(log, id, path))
    && (forall path :: path in index ==> index[path] != {})
  }

  /** What the index holds is determined by the registrations. */
  lemma IndexDetermined(index: Index, log: seq<Registration>, other: Index, log': seq<Registration>)
    requires Agrees(index, log) && Agrees(other, log')
    requires forall path, id :: Registered(log, id, path) <==> Registered(log', id, path)
    ensures index == other
  {
    SubIndex(index, log, other, log');
    SubIndex(other, log', index, log);
    forall path | path in index
      ensures index[path] == other[path]
    {
      forall id
        ensures id in index[path] <==> id in other[path]
      {
        assert Under(index, path, id) <==> Under(other, path, id);
      }
    }
  }

  lemma SubIndex(index: Index, log: seq<Registration>, other: Index, log': seq<Registration>)
    requires Agrees(index, log) && Agrees(other, log')
    requires forall path, id :: Registered(log, id, path) <==> Registered(log', id, path)
    ensures index.Keys <= other.Keys
  {
    forall path | path in index
      ensures path in other
    {
      var id :| id in index[path];
      assert Under(index, path, id);
      assert Under(other, path, id);
    }
  }

  lemma RegisteredMore(log: seq<Registration>, r: Registration, id: TeleID, path: string)
    ensures Registered(log + [r], id, path)
            <==> match r
                 case Register(i, paths) => (i == id && path in paths) || Registered(log, id, path)
                 case Unregister(i) => i != id && Registered(log, id, path)
  {
    assert Init(log + [r]) == log;
  }

  /** Registering again, with the old paths and perhaps more, adds the new paths and changes nothing else. */
  lemma RegisterAgain(before: Index, after: Index, log: seq<Registration>, id: TeleID, old_: set<string>, more: set<string>)
    requires Agrees(before, log + [Register(id, old_)])
    requires Agrees(after, log + [Register(id, old_)] + [Register(id, old_ + more)])
    ensures more <= old_ ==> after == before
    ensures forall path, i :: Under(after, path, i) <==> Under(before, path, i) || (i == id && path in more)
  {
    var log1 := log + [Register(id, old_)];
    var log2 := log1 + [Register(id, old_ + more)];
    forall path, i
      ensures Registered(log2, i, path) <==> Registered(log1, i, path) || (i == id && path in more)
    {
      RegisteredMore(log1, Register(id, old_ + more), i, path);
      RegisteredMore(log, Register(id, old_), i, path);
    }
    if more <= old_ {
      forall path, i
        ensures Registered(log2, i, path) <==> Registered(log1, i, path)
      {
        RegisteredMore(log, Register(id, old_), i, path);
      }
      IndexDetermined(after, log2, before, log1);
    }
  }

  /** An unregistered subscription is nowhere, and the others stay where they are. */
  lemma UnregisterForgets(before: Index, after: Index, log: seq<Registration>, id: TeleID)
    requires Agrees(before, log) && Agrees(after, log + [Unregister(id)])
    ensures forall path, i :: Under(after, path, i) <==> Under(before, path, i) && i != id
  {
    forall path, i
      ensures Under(after, path, i) <==> Under(before, path, i) && i != id
    {
      RegisteredMore(log, Unregister(id), i, path);
    }
  }

  // ---------------------------------------------------------------- the events

  datatype ChangeOp = Created | Replaced | Deleted

  /** One change of the transaction, with the index when it was reported. */
  datatype Change = Change(op: ChangeOp, path: string, index: Index)

  datatype Event = Event(updated: seq<string>, deleted: seq<string>)

  predicate IsSchemaPath(p: Path) {
    forall e :: e in p ==> forall k :: k in e.keys ==> e.keys[k] == "*"
  }

  function SchemaText(p: Path): string {
    Slashed(Names(p))
  }

  /** The texts that the index is searched for: none if the path cannot be read, else the path itself, and
      without its keys if it has any. */
  function Searches(path: string): seq<string> {
    match PathOf(path)
    case Err => []
    case Ok(p) => if IsSchemaPath(p) then [path] else [path, SchemaText(p)]
  }

  /** The entries of the index that match a search. */
  function Matching(index: Index, search: string, matches: (string, string) -> bool): set<string> {
    set p | p in index && matches(p, search)
  }

  /** The paths among these that have the subscription. */
  function Having(index: Index, id: TeleID, paths: set<string>): set<string> {
    set p | p in paths && p in index && id in index[p]
  }

  function Hits(index: Index, id: TeleID, search: string, matches: (string, string) -> bool): nat {
    |Having(index, id, Matching(index, search, matches))|
  }

  /** How often a change is listed for a subscription: once for every matching entry of the index. */
  function Copies(index: Index, id: TeleID, searches: seq<string>, matches: (string, string) -> bool): nat {
    if searches == [] then 0
    else Copies(index, id, Init(searches), matches) + Hits(index, id, Last(searches), matches)
  }

  function Repeat(path: string, n: nat): (r: seq<string>)
    ensures |r| == n && forall i :: 0 <= i < n ==> r[i] == path
  {
    seq(n, _ => path)
  }

  /** The changes listed for a subscription, in order: the created and replaced ones, and the replaced and deleted ones. */
  function Listed(changes: seq<Change>, id: TeleID, ops: set<ChangeOp>, matches: (string, string) -> bool): seq<string> {
    if changes == [] then []
    else
      var c := Last(changes);
      Listed(Init(changes), id, ops, matches)
      + if c.op in ops then Repeat(c.path, Copies(c.index, id, Searches(c.path), matches)) else []
  }

  function EventFor(changes: seq<Change>, id: TeleID, matches: (string, string) -> bool): Event {
    Event(Listed(changes, id, {Created, Replaced}, matches), Listed(changes, id, {Replaced, Deleted}, matches))
  }

  const NOTHING := Event([], [])

  function Look(ready: map<TeleID, Event>, id: TeleID): Event {
    if id in ready then ready[id] else NOTHING
  }

  /** The events under construction: one for each subscription that some change is listed for, and no empty one. */
  ghost predicate Collected(ready: map<TeleID, Event>, changes: seq<Change>, matches: (string, string) -> bool) {
    && (forall id :: Look(ready, id) == EventFor(changes, id, matches))
    && (forall id :: id in ready ==> ready[id] != NOTHING)
  }

  /** An event with a change appended n times. */
  function Pushed(e: Event, op: ChangeOp, path: string, n: nat): Event {
    Event(e.updated + if op != Deleted then Repeat(path, n) else [],
          e.deleted + if op != Created then Repeat(path, n) else [])
  }

  lemma PushedMore(e: Event, op: ChangeOp, path: string, n: nat, m: nat)
    ensures Pushed(Pushed(e, op, path, n), op, path, m) == Pushed(e, op, path, n + m)
    ensures Pushed(e, op, path, 0) == e
  {
    assert Repeat(path, n) + Repeat(path, m) == Repeat(path, n + m);
    ConcatAssoc(e.updated, Repeat(path, n), Repeat(path, m));
    ConcatAssoc(e.deleted, Repeat(path, n), Repeat(path, m));
  }

  lemma EventForMore(changes: seq<Change>, c: Change, id: TeleID, matches: (string, string) -> bool)
    ensures EventFor(changes + [c], id, matches)
            == Pushed(EventFor(changes, id, matches), c.op, c.path, Copies(c.index, id, Searches(c.path), matches))
  {
    assert Init(changes + [c]) == changes;
  }

  /** Every event has the change appended once for each of these paths that has its subscription. */
  ghost predicate PushedFor(before: map<TeleID, Event>, after: map<TeleID, Event>, op: ChangeOp, path: string,
      index: Index, paths: set<string>)
  {
    && (forall id :: Look(after, id) == Pushed(Look(before, id), op, path, |Having(index, id, paths)|))
    && (forall id :: id in after ==> id in before || Having(index, id, paths) != {})
  }

  /** The same for the subscriptions of one entry of the index. */
  ghost predicate PushedOnce(before: map<TeleID, Event>, after: map<TeleID, Event>, op: ChangeOp, path: string,
      ids: set<TeleID>)
  {
    && (forall id :: Look(after, id) == Pushed(Look(before, id), op, path, if id in ids then 1 else 0))
    && (forall id :: id in after ==> id in before || id in ids)
  }

  /** The same for a whole change. */
  ghost predicate PushedAll(before: map<TeleID, Event>, after: map<TeleID, Event>, op: ChangeOp, path: string, index: Index,
      searches: seq<string>, matches: (string, string) -> bool)
  {
    && (forall id :: Look(after, id) == Pushed(Look(before, id), op, path, Copies(index, id, searches, matches)))
    && (forall id :: id in after ==> id in before || Copies(index, id, searches, matches) > 0)
  }

  lemma PushedForMore(before: map<TeleID, Event>, mid: map<TeleID, Event>, after: map<TeleID, Event>, op: ChangeOp,
      path: string,
      index: Index, paths: set<string>, p: string)
    requires PushedFor(before, mid, op, path, index, paths) && p in index && p !in paths
    requires PushedOnce(mid, after, op, path, index[p])
    ensures PushedFor(before, after, op, path, index, paths + {p})
  {
    forall id
      ensures Look(after, id) == Pushed(Look(before, id), op, path, |Having(index, id, paths + {p})|)
      ensures id in after ==> id in before || Having(index, id, paths + {p}) != {}
    {
      var one := if id in index[p] then 1 else 0;
      HavingMore(index, id, paths, p);
      hide Having, Pushed;
      assert Look(mid, id) == Pushed(Look(before, id), op, path, |Having(index, id, paths)|);
      assert Look(after, id) == Pushed(Look(mid, id), op, path, one);
      PushedMore(Look(before, id), op, path, |Having(index, id, paths)|, one);
    }
  }

  lemma HavingMore(index: Index, id: TeleID, paths: set<string>, p: string)
    requires p in index && p !in paths
    ensures |Having(index, id, paths + {p})| == |Having(index, id, paths)| + if id in index[p] then 1 else 0
    ensures Having(index, id, paths) != {} || id in index[p] ==> Having(index, id, paths + {p}) != {}
  {
    assert Having(index, id, paths + {p}) == Having(index, id, paths) + if id in index[p] then {p} else {};
    assert p !in Having(index, id, paths);
  }

  lemma PushedAllMore(before: map<TeleID, Event>, mid: map<TeleID, Event>, after: map<TeleID, Event>, op: ChangeOp,
      path: string,
      index: Index, searches: seq<string>, search: string, matches: (string, string) -> bool)
    requires PushedAll(before, mid, op, path, index, searches, matches)
    requires PushedFor(mid, after, op, path, index, Matching(index, search, matches))
    ensures PushedAll(before, after, op, path, index, searches + [search], matches)
  {
    hide Look, Having, Pushed, Matching, Copies;
    forall id
      ensures Look(after, id) == Pushed(Look(before, id), op, path, Copies(index, id, searches + [search], matches))
      ensures id in after ==> id in before || Copies(index, id, searches + [search], matches) > 0
    {
      var having := Having(index, id, Matching(index, search, matches));
      CopiesMore(index, id, searches, search, matches);
      assert Look(mid, id) == Pushed(Look(before, id), op, path, Copies(index, id, searches, matches));
      assert Look(after, id) == Pushed(Look(mid, id), op, path, |having|);
      PushedMore(Look(before, id), op, path, Copies(index, id, searches, matches), |having|);
    }
  }

  lemma CopiesMore(index: Index, id: TeleID, searches: seq<string>, search: string, matches: (string, string) -> bool)
    ensures Copies(index, id, searches + [search], matches)
            == Copies(index, id, searches, matches) + |Having(index, id, Matching(index, search, matches))|
    ensures Having(index, id, Matching(index, search, matches)) != {} ==> Copies(index, id, searches + [search], matches) > 0
  {
    assert Init(searches + [search]) == searches;
  }

  lemma PushedNone(ready: map<TeleID, Event>, op: ChangeOp, path: string, index: Index, matches: (string, string) -> bool)
    ensures PushedAll(ready, ready, op, path, index, [], matches)
    ensures PushedOnce(ready, ready, op, path, {})
    ensures PushedFor(ready, ready, op, path, index, {})
  {
    forall id {
      PushedMore(Look(ready, id), op, path, 0, 0);
    }
    assert forall id :: Having(index, id, {}) == {};
  }

  lemma CollectedMore(before: map<TeleID, Event>, after: map<TeleID, Event>, changes: seq<Change>, c: Change,
      matches: (string, string) -> bool)
    requires Collected(before, changes, matches)
    requires PushedAll(before, after, c.op, c.path, c.index, Searches(c.path), matches)
    ensures Collected(after, changes + [c], matches)
  {
    forall id
      ensures Look(after, id) == EventFor(changes + [c], id, matches)
      ensures id in after ==> after[id] != NOTHING
    {
      EventForMore(changes, c, id, matches);
      var n := Copies(c.index, id, Searches(c.path), matches);
      assert Look(after, id) == Pushed(Look(before, id), c.op, c.path, n);
      NotNothing(Look(before, id), c.op, c.path, n);
    }
  }

  lemma NotNothing(e: Event, op: ChangeOp, path: string, n: nat)
    ensures e != NOTHING || n > 0 ==> Pushed(e, op, path, n) != NOTHING
  {
    assert |Repeat(path, n)| == n;
  }

  lemma PushOne(before: map<TeleID, Event>, ready: map<TeleID, Event>, op: ChangeOp, path: string, ids: set<TeleID>,
      id: TeleID, e: Event)
    requires PushedOnce(before, ready, op, path, ids) && id !in ids
    requires e == Pushed(Look(ready, id), op, path, 1)
    ensures PushedOnce(before, ready[id := e], op, path, ids + {id})
  {
    PushedMore(Look(before, id), op, path, 0, 1);
  }

  class TeleCtrl {
    /** The match relation of the trie. */
    const matches: (string, string) -> bool
    var lookup: Index
    var ready: map<TeleID, Event>
    /** The event queues that there are, and those of them that have been closed. */
    var queues: map<TeleID, seq<Event>>
    var closed: set<TeleID>
    ghost var log: seq<Registration>
    ghost var changes: seq<Change>

    ghost predicate Valid()
      reads this
    {
      Agrees(lookup, log) && Collected(ready, changes, matches)
    }

    constructor (matches: (string, string) -> bool, queues: map<TeleID, seq<Event>>)
      ensures Valid() && log == [] && changes == [] && this.matches == matches && this.queues == queues && closed == {}
    {
      this.matches, this.queues, this.closed := matches, queues, {};
      lookup, ready, log, changes := map[], map[], [], [];
    }

    /** register: the paths are those that the paths of the subscription expand to. */
    method Register(id: TeleID, targets: seq<seq<string>>)
      requires Valid()
      modifies this`lookup, this`log
      ensures Valid()
      ensures log == old(log) + [Registration.Register(id, Flat(targets))]
    {
      ghost var before := lookup;
      for i := 0 to |targets|
        invariant log == old(log) && Added(before, lookup, id, Flat(targets[..i]))
      {
        var targetpaths := targets[i];
        for j := 0 to |targetpaths|
          invariant log == old(log) && Added(before, lookup, id, Flat(targets[..i]) + Elements(targetpaths[..j]))
        {
          var p := targetpaths[j];
          var subgroup := if p in lookup then lookup[p] else {};
          AddedMore(before, lookup, id, Flat(targets[..i]) + Elements(targetpaths[..j]), p);
          ElementsSnoc(targetpaths, j);
          lookup := lookup[p := subgroup + {id}];
          assert Flat(targets[..i]) + Elements(targetpaths[..j + 1]) == Flat(targets[..i]) + Elements(targetpaths[..j]) + {p};
        }
        assert targetpaths[..|targetpaths|] == targetpaths;
        assert Init(targets[..i + 1]) == targets[..i];
      }
      assert targets[..|targets|] == targets;
      RegisterAgrees(before, lookup, log, id, Flat(targets));
      log := log + [Registration.Register(id, Flat(targets))];
    }

    /** unregister */
    method Unregister(id: TeleID)
      requires Valid()
      modifies this`lookup, this`log
      ensures Valid()
      ensures log == old(log) + [Registration.Unregister(id)]
    {
      ghost var before := lookup;
      ghost var done: set<string> := {};
      var all := lookup.Keys;
      RemovedNone(before, id);
      PartitionStart(before.Keys);
      hide Removed, Agrees, Partition;
      while all != {}
        invariant log == old(log) && Partition(before.Keys, done, all)
        invariant all <= lookup.Keys && Removed(before, lookup, id, done)
        decreases |all|
      {
        var p :| p in all;
        PartitionMore(before.Keys, done, all, p);
        RemovedMore(before, lookup, id, done, p);
        var subscriber := lookup[p];
        if id in subscriber {
          if subscriber == {id} {
            lookup := lookup - {p};
          } else {
            lookup := lookup[p := subscriber - {id}];
          }
        }
        all := all - {p};
        done := done + {p};
      }
      PartitionEnd(before.Keys, done);
      UnregisterAgrees(before, lookup, log, id);
      log := log + [Registration.Unregister(id)];
    }

    method ChangeStarted()
      requires Valid()
      modifies this`ready, this`changes
      ensures Valid() && changes == [] && ready == map[]
    {
      ready := map[];
      changes := [];
    }

    /** The inner loop of updateTeleEvent, over the subscribers of one group in any order. */
    method UpdateGroup(op: ChangeOp, datapath: string, group: set<TeleID>)
      modifies this`ready
      ensures PushedOnce(old(ready), ready, op, datapath, group)
    {
      ghost var before := ready;
      ghost var done: set<TeleID> := {};
      var subscribers := group;
      PushedNone(before, op, datapath, lookup, matches);
      PartitionStart(group);
      hide PushedOnce, PushedFor, Pushed, WithPath, Partition;
      while subscribers != {}
        invariant Partition(group, done, subscribers)
        invariant PushedOnce(before, ready, op, datapath, done)
        decreases |subscribers|
      {
        var id :| id in subscribers;
        PartitionMore(group, done, subscribers, id);
        var event := if id in ready then ready[id] else Event([], []);
        OneMore(event, op, datapath);
        event := WithPath(event, op, datapath);
        PushOne(before, ready, op, datapath, done, id, event);
        ready := ready[id := event];
        subscribers := subscribers - {id};
        done := done + {id};
      }
      PartitionEnd(group, done);
    }

    /** updateTeleEvent: the groups come in any order. */
    method UpdateTeleEvent(op: ChangeOp, datapath: string, searchpath: string)
      modifies this`ready
      ensures PushedFor(old(ready), ready, op, datapath, lookup, Matching(lookup, searchpath, matches))
    {
      var groups := Matching(lookup, searchpath, matches);
      ghost var before := ready;
      ghost var done: set<string> := {};
      var todo := groups;
      PushedNone(before, op, datapath, lookup, matches);
      PartitionStart(groups);
      hide PushedFor, PushedOnce, Partition;
      while todo != {}
        invariant Partition(groups, done, todo)
        invariant PushedFor(before, ready, op, datapath, lookup, done)
        decreases |todo|
      {
        var p :| p in todo;
        PartitionMore(groups, done, todo, p);
        ghost var mid := ready;
        UpdateGroup(op, datapath, lookup[p]);
        PushedForMore(before, mid, ready, op, datapath, lookup, done, p);
        todo := todo - {p};
        done := done + {p};
      }
      PartitionEnd(groups, done);
    }

    /** ChangeCreated, ChangeReplaced and ChangeDeleted. */
    method Changed(op: ChangeOp, datapath: string)
      requires Valid()
      modifies this`ready, this`changes
      ensures Valid() && changes == old(changes) + [Change(op, datapath, lookup)]
    {
      ghost var before := ready;
      var gpath := ToGNMIPath(datapath);
      PushedNone(before, op, datapath, lookup, matches);
      hide PushedAll, PushedFor, PushedOnce, Collected, PathOf, SchemaText, IsSchemaPath;
      if gpath.Ok? {
        UpdateTeleEvent(op, datapath, datapath);
        PushedAllMore(before, before, ready, op, datapath, lookup, [], datapath, matches);
        assert [] + [datapath] == [datapath];
        if !IsSchemaPath(gpath.value) {
          ghost var mid := ready;
          UpdateTeleEvent(op, datapath, SchemaText(gpath.value));
          PushedAllMore(before, mid, ready, op, datapath, lookup, [datapath], SchemaText(gpath.value), matches);
          assert [datapath] + [SchemaText(gpath.value)] == [datapath, SchemaText(gpath.value)];
        }
      }
      CollectedMore(before, ready, changes, Change(op, datapath, lookup), matches);
      changes := changes + [Change(op, datapath, lookup)];
    }

    /** StopTelemetryUpdate: the queue is closed, but an event under construction stays. */
    method Stop(id: TeleID)
      requires Valid() && id !in closed
      modifies this`lookup, this`log, this`closed
      ensures Valid() && log == old(log) + [Registration.Unregister(id)]
      ensures closed == if id in queues then old(closed) + {id} else old(closed)
    {
      Unregister(id);
      if id in queues {
        closed := closed + {id};
      }
    }

    /** Every subscription with a queue gets at most one event, with exactly the changes listed for it. Sending to a
        closed queue is fatal: that happens exactly when a change of the transaction concerned a subscription
        that was stopped before the transaction was completed. */
    method ChangeCompleted() returns (ok: bool)
      requires Valid()
      modifies this`ready, this`queues, this`changes
      ensures ok <==> forall id :: id in closed && id in queues ==> EventFor(old(changes), id, matches) == NOTHING
      ensures ok ==> Valid() && ready == map[] && changes == []
      ensures queues.Keys == old(queues).Keys
      ensures forall id :: id in queues ==>
        var e := EventFor(old(changes), id, matches);
        var sent := old(queues)[id] + if e == NOTHING then [] else [e];
        queues[id] == sent || (!ok && queues[id] == old(queues)[id])
    {
      ghost var before, events := queues, ready;
      ghost var done;
      ok, done := SendReady();
      hide EventFor, Collected, Sent, Agrees, Look, NoneClosed;
      EventReadyExact(events, changes, matches);
      if ok {
        SentAll(before, queues, events, done, changes, matches);
        NothingCollected(matches);
        NoneClosedEnd(done, before.Keys, closed);
        changes := [];
      } else {
        SentSome(before, queues, events, done, changes, matches);
      }
    }

    /** The loop of ChangeCompleted, over the events in any order, up to one whose queue is closed. */
    method SendReady() returns (ok: bool, ghost done: set<TeleID>)
      modifies this`ready, this`queues
      ensures Sent(old(queues), queues, old(ready), done)
      ensures ok ==> ready == map[] && done == old(ready).Keys && NoneClosed(done, old(queues).Keys, closed)
      ensures !ok ==> exists id :: id in old(ready) && id in old(queues) && id in closed
    {
      hide *;
      ghost var before, events := queues, ready;
      done := {};
      SentNone(before, events);
      NoneClosedStart(before.Keys, closed);
      DrainStart(events);
      while ready != map[]
        invariant Draining(events, ready, done) && Sent(before, queues, events, done)
        invariant NoneClosed(done, before.Keys, closed)
        decreases |ready|
      {
        var id :| id in ready;
        DrainMore(events, ready, done, id);
        SentMore(before, queues, events, done, id);
        SentKeys(before, queues, events, done);
        if id in queues && id in closed {
          return false, done;
        }
        NoneClosedMore(done, before.Keys, closed, id);
        queues := Deliver(queues, id, ready[id]);
        ready := ready - {id};
        done := done + {id};
      }
      DrainEnd(events, done);
      ok := true;
    }
  }

  ghost predicate NoneClosed(done: set<TeleID>, having: set<TeleID>, closed: set<TeleID>) {
    forall id :: id in done && id in having ==> id !in closed
  }

  lemma NoneClosedStart(having: set<TeleID>, closed: set<TeleID>)
    ensures NoneClosed({}, having, closed)
  {
  }

  lemma NoneClosedMore(done: set<TeleID>, having: set<TeleID>, closed: set<TeleID>, id: TeleID)
    requires NoneClosed(done, having, closed) && (id in having ==> id !in closed)
    ensures NoneClosed(done + {id}, having, closed)
  {
  }

  lemma NoneClosedEnd(done: set<TeleID>, having: set<TeleID>, closed: set<TeleID>)
    requires NoneClosed(done, having, closed)
    ensures forall id :: id in closed && id in having ==> id !in done
  {
  }

  lemma EventReadyExact(ready: map<TeleID, Event>, changes: seq<Change>, matches: (string, string) -> bool)
    requires Collected(ready, changes, matches)
    ensures forall id :: id !in ready <==> EventFor(changes, id, matches) == NOTHING
  {
    forall id
      ensures id !in ready <==> EventFor(changes, id, matches) == NOTHING
    {
      assert Look(ready, id) == EventFor(changes, id, matches);
    }
  }

  lemma SentKeys(before: map<TeleID, seq<Event>>, after: map<TeleID, seq<Event>>, events: map<TeleID, Event>,
      done: set<TeleID>)
    requires Sent(before, after, events, done)
    ensures before.Keys == after.Keys
  {
  }

  lemma SentSome(before: map<TeleID, seq<Event>>, after: map<TeleID, seq<Event>>, events: map<TeleID, Event>,
      done: set<TeleID>, changes: seq<Change>, matches: (string, string) -> bool)
    requires Sent(before, after, events, done) && Collected(events, changes, matches)
    ensures before.Keys == after.Keys
    ensures forall id :: id in after ==>
      var e := EventFor(changes, id, matches);
      after[id] == before[id] || after[id] == before[id] + if e == NOTHING then [] else [e]
  {
    CollectedParts(events, changes, matches);
    hide EventFor, Collected;
  }

  /** Some of the events are done, and the others are still there. */
  ghost predicate Draining(events: map<TeleID, Event>, rest: map<TeleID, Event>, done: set<TeleID>) {
    events.Keys == done + rest.Keys && done !! rest.Keys && forall id :: id in rest ==> rest[id] == events[id]
  }

  lemma DrainStart(events: map<TeleID, Event>)
    ensures Draining(events, events, {})
  {
  }

  lemma DrainMore(events: map<TeleID, Event>, rest: map<TeleID, Event>, done: set<TeleID>, id: TeleID)
    requires Draining(events, rest, done) && id in rest
    ensures Draining(events, rest - {id}, done + {id}) && |rest - {id}| < |rest|
    ensures id in events && id !in done && events[id] == rest[id]
  {
    assert (rest - {id}).Keys == rest.Keys - {id};
    assert |(rest - {id}).Keys| == |rest - {id}| && |rest.Keys| == |rest|;
  }

  lemma DrainEnd(events: map<TeleID, Event>, done: set<TeleID>)
    requires Draining(events, map[], done)
    ensures done == events.Keys
  {
  }

  ghost predicate Sent(before: map<TeleID, seq<Event>>, after: map<TeleID, seq<Event>>, events: map<TeleID, Event>,
      done: set<TeleID>)
  {
    && before.Keys == after.Keys
    && forall id :: id in after ==> after[id] == before[id] + if id in done && id in events then [events[id]] else []
  }

  /** An event goes to its subscription if the queue is open. */
  function Deliver(queues: map<TeleID, seq<Event>>, id: TeleID, e: Event): map<TeleID, seq<Event>> {
    if id in queues then queues[id := queues[id] + [e]] else queues
  }

  lemma SentNone(queues: map<TeleID, seq<Event>>, events: map<TeleID, Event>)
    ensures Sent(queues, queues, events, {})
  {
  }

  lemma SentMore(before: map<TeleID, seq<Event>>, after: map<TeleID, seq<Event>>, events: map<TeleID, Event>,
      done: set<TeleID>, id: TeleID)
    requires Sent(before, after, events, done) && id in events && id !in done
    ensures Sent(before, Deliver(after, id, events[id]), events, done + {id})
  {
  }

  lemma SentAll(before: map<TeleID, seq<Event>>, after: map<TeleID, seq<Event>>, events: map<TeleID, Event>,
      done: set<TeleID>, changes: seq<Change>, matches: (string, string) -> bool)
    requires Sent(before, after, events, done) && done == events.Keys && Collected(events, changes, matches)
    ensures before.Keys == after.Keys
    ensures forall id :: id in after ==>
      var e := EventFor(changes, id, matches);
      after[id] == before[id] + if e == NOTHING then [] else [e]
  {
    CollectedParts(events, changes, matches);
    hide EventFor, Collected;
  }

  lemma CollectedParts(ready: map<TeleID, Event>, changes: seq<Change>, matches: (string, string) -> bool)
    requires Collected(ready, changes, matches)
    ensures NOTHING !in ready.Values && forall id :: Look(ready, id) == EventFor(changes, id, matches)
  {
  }

  lemma NothingCollected(matches: (string, string) -> bool)
    ensures Collected(map[], [], matches)
  {
  }

  function WithPath(e: Event, op: ChangeOp, path: string): Event {
    match op
    case Created => e.(updated := e.updated + [path])
    case Replaced => Event(e.updated + [path], e.deleted + [path])
    case Deleted => e.(deleted := e.deleted + [path])
  }

  lemma OneMore(e: Event, op: ChangeOp, path: string)
    ensures Pushed(e, op, path, 1) == WithPath(e, op, path)
  {
    assert Repeat(path, 1) == [path];
    assert e.updated + [] == e.updated && e.deleted + [] == e.deleted;
  }

  function Elements(s: seq<string>): set<string> {
    set p | p in s
  }

  function Flat(targets: seq<seq<string>>): set<string> {
    if targets == [] then {} else Flat(Init(targets)) + Elements(Last(targets))
  }

  lemma ElementsSnoc(s: seq<string>, j: nat)
    requires j < |s|
    ensures Elements(s[..j + 1]) == Elements(s[..j]) + {s[j]}
  {
    assert s[..j + 1] == s[..j] + [s[j]];
  }

  ghost predicate Added(before: Index, after: Index, id: TeleID, paths: set<string>) {
    && (forall path, i :: Under(after, path, i) <==> Under(before, path, i) || (i == id && path in paths))
    && (forall path :: path in after ==> path in before || path in paths)
  }

  lemma AddedMore(before: Index, after: Index, id: TeleID, paths: set<string>, p: string)
    requires Added(before, after, id, paths)
    ensures Added(before, after[p := (if p in after then after[p] else {}) + {id}], id, paths + {p})
  {
    var next := after[p := (if p in after then after[p] else {}) + {id}];
    forall path, i
      ensures Under(next, path, i) <==> Under(before, path, i) || (i == id && path in paths + {p})
    {
      assert Under(after, path, i) <==> Under(before, path, i) || (i == id && path in paths);
    }
  }

  lemma RegisterAgrees(before: Index, after: Index, log: seq<Registration>, id: TeleID, paths: set<string>)
    requires Agrees(before, log) && Added(before, after, id, paths)
    ensures Agrees(after, log + [Register(id, paths)])
  {
    forall path, i
      ensures Under(after, path, i) <==> Registered(log + [Register(id, paths)], i, path)
    {
      RegisteredMore(log, Register(id, paths), i, path);
    }
    forall path | path in after
      ensures after[path] != {}
    {
      if path in before {
        var i :| i in before[path];
        assert Under(before, path, i);
        assert Under(after, path, i);
      } else {
        assert Under(after, path, id);
      }
    }
  }

  ghost predicate Removed(before: Index, after: Index, id: TeleID, done: set<string>) {
    && after.Keys <= before.Keys && before.Keys - done <= after.Keys
    && (forall path :: path in after ==> after[path] == if path in done then before[path] - {id} else before[path])
    && (forall path :: path in done && path in before ==> (path in after <==> before[path] != {id}))
  }

  lemma RemovedNone(index: Index, id: TeleID)
    ensures Removed(index, index, id, {})
  {
  }

  lemma RemovedMore(before: Index, after: Index, id: TeleID, done: set<string>, p: string)
    requires Removed(before, after, id, done) && p in after && p !in done
    ensures Removed(before, if after[p] == {id} then after - {p} else if id in after[p] then after[p := after[p] - {id}] else after,
                    id, done + {p})
  {
  }

  lemma UnregisterAgrees(before: Index, after: Index, log: seq<Registration>, id: TeleID)
    requires Agrees(before, log) && Removed(before, after, id, before.Keys)
    ensures Agrees(after, log + [Unregister(id)])
  {
    forall path, i
      ensures Under(after, path, i) <==> Registered(log + [Unregister(id)], i, path)
    {
      RegisteredMore(log, Unregister(id), i, path);
      assert Under(before, path, i) <==> Registered(log, i, path);
      if Under(before, path, i) && path !in after {
        assert before[path] == {id};
      }
    }
    forall path | path in after
      ensures after[path] != {}
    {
      assert before[path] != {} && before[path] != {id};
    }
  }

  // ---------------------------------------------------------------- what an event says

  /** Some entry of the index that has the subscription matches a search for the change. */
  predicate Concerns(index: Index, id: TeleID, searches: seq<string>, matches: (string, string) -> bool) {
    exists s, p :: s in searches && p in index && matches(p, s) && id in index[p]
  }

  lemma {:induction false} CopiesExact(index: Index, id: TeleID, searches: seq<string>, matches: (string, string) -> bool)
    ensures Copies(index, id, searches, matches) > 0 <==> Concerns(index, id, searches, matches)
  {
    if searches != [] {
      CopiesExact(index, id, Init(searches), matches);
      var having := Having(index, id, Matching(index, Last(searches), matches));
      assert searches == Init(searches) + [Last(searches)];
      if having != {} {
        var p :| p in having;
        assert matches(p, Last(searches)) && Last(searches) in searches;
      }
      if Concerns(index, id, searches, matches) {
        var s, p :| s in searches && p in index && matches(p, s) && id in index[p];
        if s == Last(searches) {
          assert p in having;
        } else {
          assert s in Init(searches);
        }
      }
    }
  }

  ghost predicate Tells(changes: seq<Change>, id: TeleID, ops: set<ChangeOp>, path: string,
      matches: (string, string) -> bool)
  {
    exists i :: 0 <= i < |changes| && Told(changes[i], id, ops, path, matches)
  }

  predicate Told(c: Change, id: TeleID, ops: set<ChangeOp>, path: string, matches: (string, string) -> bool) {
    c.op in ops && c.path == path && Concerns(c.index, id, Searches(path), matches)
  }

  /** A path is listed exactly when some change of that kind to that path concerns the subscription. */
  lemma {:induction false} ListedExact(changes: seq<Change>, id: TeleID, ops: set<ChangeOp>, path: string,
      matches: (string, string) -> bool)
    ensures path in Listed(changes, id, ops, matches) <==> Tells(changes, id, ops, path, matches)
  {
    if changes != [] {
      var c := Last(changes);
      var n := Copies(c.index, id, Searches(c.path), matches);
      ListedExact(Init(changes), id, ops, path, matches);
      TellsMore(changes, id, ops, path, matches);
      ToldListed(c, id, ops, path, matches);
      hide Tells, Told, Copies, Searches;
    }
  }

  lemma ToldListed(c: Change, id: TeleID, ops: set<ChangeOp>, path: string, matches: (string, string) -> bool)
    ensures path in (if c.op in ops then Repeat(c.path, Copies(c.index, id, Searches(c.path), matches)) else [])
            <==> Told(c, id, ops, path, matches)
  {
    CopiesExact(c.index, id, Searches(c.path), matches);
    RepeatHas(c.path, Copies(c.index, id, Searches(c.path), matches), path);
    hide Copies, Concerns, Searches, Repeat;
  }

  lemma TellsMore(changes: seq<Change>, id: TeleID, ops: set<ChangeOp>, path: string, matches: (string, string) -> bool)
    requires changes != []
    ensures Tells(changes, id, ops, path, matches)
            <==> Tells(Init(changes), id, ops, path, matches) || Told(Last(changes), id, ops, path, matches)
  {
    hide Told;
    var n := |changes| - 1;
    assert changes[n] == Last(changes) && forall i :: 0 <= i < n ==> Init(changes)[i] == changes[i];
    if Tells(Init(changes), id, ops, path, matches) {
      var i :| 0 <= i < n && Told(Init(changes)[i], id, ops, path, matches);
      assert Told(changes[i], id, ops, path, matches);
    }
  }

  lemma RepeatHas(path: string, n: nat, other: string)
    ensures other in Repeat(path, n) <==> n > 0 && other == path
  {
    if n > 0 {
      assert Repeat(path, n)[0] == path;
    }
  }

  /** What is listed keeps the order of the changes, wherever the transaction is cut. */
  lemma {:induction false} ListedInOrder(first: seq<Change>, then_: seq<Change>, id: TeleID, ops: set<ChangeOp>,
      matches: (string, string) -> bool)
    ensures Listed(first + then_, id, ops, matches) == Listed(first, id, ops, matches) + Listed(then_, id, ops, matches)
  {
    if then_ == [] {
      assert first + then_ == first;
    } else {
      assert Init(first + then_) == first + Init(then_) && Last(first + then_) == Last(then_);
      ListedInOrder(first, Init(then_), id, ops, matches);
    }
  }

  ghost predicate SomeConcerns(changes: seq<Change>, id: TeleID, matches: (string, string) -> bool) {
    exists i :: 0 <= i < |changes| && Concerns(changes[i].index, id, Searches(changes[i].path), matches)
  }

  lemma TellsConcerns(changes: seq<Change>, id: TeleID, ops: set<ChangeOp>, path: string, matches: (string, string) -> bool)
    requires Tells(changes, id, ops, path, matches)
    ensures SomeConcerns(changes, id, matches)
  {
    hide Concerns, Searches;
    var i :| 0 <= i < |changes| && Told(changes[i], id, ops, path, matches);
    assert Concerns(changes[i].index, id, Searches(changes[i].path), matches);
  }

  /** A subscription gets an event exactly when some change of the transaction concerns it. */
  lemma EventExact(changes: seq<Change>, id: TeleID, matches: (string, string) -> bool)
    ensures EventFor(changes, id, matches) != NOTHING <==> SomeConcerns(changes, id, matches)
  {
    hide Concerns, Searches, Listed, Tells;
    var updated, deleted := {Created, Replaced}, {Replaced, Deleted};
    var e := EventFor(changes, id, matches);
    if SomeConcerns(changes, id, matches) {
      var i :| 0 <= i < |changes| && Concerns(changes[i].index, id, Searches(changes[i].path), matches);
      var ops := if changes[i].op == Deleted then deleted else updated;
      ToldTells(changes, i, id, ops, matches);
      ListedExact(changes, id, ops, changes[i].path, matches);
    }
    if e.updated != [] {
      ListedExact(changes, id, updated, e.updated[0], matches);
      TellsConcerns(changes, id, updated, e.updated[0], matches);
    } else if e.deleted != [] {
      ListedExact(changes, id, deleted, e.deleted[0], matches);
      TellsConcerns(changes, id, deleted, e.deleted[0], matches);
    }
  }

  lemma ToldTells(changes: seq<Change>, i: nat, id: TeleID, ops: set<ChangeOp>, matches: (string, string) -> bool)
    requires i < |changes| && changes[i].op in ops
    requires Concerns(changes[i].index, id, Searches(changes[i].path), matches)
    ensures Tells(changes, id, ops, changes[i].path, matches)
  {
    assert Told(changes[i], id, ops, changes[i].path, matches);
  }

  /** A subscription that was stopped before the first change of the transaction gets no event: nothing is sent to
      its closed queue. */
  lemma StoppedBefore(changes: seq<Change>, id: TeleID, matches: (string, string) -> bool)
    requires forall i, p :: 0 <= i < |changes| && p in changes[i].index ==> id !in changes[i].index[p]
    ensures EventFor(changes, id, matches) == NOTHING
  {
    EventExact(changes, id, matches);
    hide EventFor;
  }

  /** A subscription that is stopped between a change of its path and the end of the transaction leaves an event for a closed
      queue, and the transaction breaks off. */
  method StoppedBetween(tele: TeleCtrl, id: TeleID, path: string, op: ChangeOp) returns (ok: bool)
    requires tele.Valid() && id in tele.queues && id !in tele.closed && PathOf(path).Ok? && tele.matches(path, path)
    modifies tele
    ensures !ok
  {
    hide *;
    var before := tele.log;
    tele.Register(id, [[path]]);
    OnePath(path);
    RegisteredMore(before, Register(id, {path}), id, path);
    UnderNow(tele, id, path);
    tele.ChangeStarted();
    var change := Change(op, path, tele.lookup);
    tele.Changed(op, path);
    tele.Stop(id);
    ConcernsIt(change, id, tele.matches);
    EventExact([change], id, tele.matches);
    assert [] + [change] == [change];
    ok := tele.ChangeCompleted();
  }

  lemma OnePath(path: string)
    ensures Flat([[path]]) == {path}
  {
    assert Init([[path]]) == [];
  }

  lemma UnderNow(tele: TeleCtrl, id: TeleID, path: string)
    requires tele.Valid() && Registered(tele.log, id, path)
    ensures path in tele.lookup && id in tele.lookup[path]
  {
    hide Registered, Collected;
    assert Under(tele.lookup, path, id);
  }

  lemma ConcernsIt(c: Change, id: TeleID, matches: (string, string) -> bool)
    requires c.path in c.index && id in c.index[c.path] && PathOf(c.path).Ok? && matches(c.path, c.path)
    ensures SomeConcerns([c], id, matches)
  {
    hide PathOf, IsSchemaPath, SchemaText;
    assert c.path in Searches(c.path);
    assert Concerns([c][0].index, id, Searches([c][0].path), matches);
  }

  // ---------------------------------------------------------------- what a change is searched by, and what the lists hold

  /** A change of a path that can be read is searched by its text; and if some key is not '*', also by the names alone, each
      led by a slash. */
  lemma SearchesExact(path: string, s: string)
    ensures s in Searches(path)
            <==> && PathOf(path).Ok?
                 && var p := PathOf(path).value;
                    || s == path
                    || (&& (exists e, k :: e in p && k in e.keys && e.keys[k] != "*")
                        && s == Slashed(seq(|p|, i requires 0 <= i < |p| => p[i].name)))
  {
    hide PathOf;
    if PathOf(path).Ok? {
      var p := PathOf(path).value;
      assert Names(p) == seq(|p|, i requires 0 <= i < |p| => p[i].name);
    }
  }

  /** The updated paths of an event are those that were created or replaced, the deleted ones those that were replaced or
      deleted, among the changes that concern the subscription. */
  lemma EventLists(changes: seq<Change>, id: TeleID, matches: (string, string) -> bool, path: string)
    ensures path in EventFor(changes, id, matches).updated
            <==> exists i :: 0 <= i < |changes| && changes[i].path == path && (changes[i].op == Created || changes[i].op == Replaced)
                             && Concerns(changes[i].index, id, Searches(path), matches)
    ensures path in EventFor(changes, id, matches).deleted
            <==> exists i :: 0 <= i < |changes| && changes[i].path == path && (changes[i].op == Replaced || changes[i].op == Deleted)
                             && Concerns(changes[i].index, id, Searches(path), matches)
  {
    ListedExact(changes, id, {Created, Replaced}, path, matches);
    ListedExact(changes, id, {Replaced, Deleted}, path, matches);
    hide Concerns, Searches, Listed;
  }
}
