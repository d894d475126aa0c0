/** The alias tables of a telemetry session (gnmi/server/aliases.go): names to paths, and paths to names,
    under target-defined (server) and client-defined aliases (section 2.4.2 of the gNMI specification). */
module Aliases {
  import opened Text
  import opened XPath
  import opened PathText

  datatype AliasEntry = AliasEntry(name: string, path: string, gpath: Path, isServer: bool)

  datatype Tables = Tables(alias2path: map<string, AliasEntry>, path2alias: map<string, AliasEntry>)

  /** One update: a server alias that is added or dropped, or a client alias that is set, or deleted by an empty
      path; text is the text of the path of a client alias. */
  datatype Update =
    | AddServer(name: string, path: string)
    | DropServer(name: string, path: string)
    | SetClient(name: string, gpath: Path, text: string)

  predicate IsName(name: string) {
    HasPrefix(name, "#")
  }

  function Bind(t: Tables, e: AliasEntry): Tables {
    Tables(t.alias2path[e.name := e], t.path2alias[e.path := e])
  }

  function Unbind(t: Tables, name: string): Tables
    requires name in t.alias2path
  {
    Tables(t.alias2path - {name}, t.path2alias - {t.alias2path[name].path})
  }

  /** The update adds an entry. */
  predicate Binds(t: Tables, u: Update) {
    && IsName(u.name) && u.name !in t.alias2path
    && match u
       case AddServer(_, path) => PathOf(path).Ok?
       case DropServer(_, _) => false
       case SetClient(_, gpath, text) => gpath != [] && text !in t.path2alias
  }

  /** The update removes an entry. */
  predicate Unbinds(t: Tables, u: Update) {
    && IsName(u.name) && u.name in t.alias2path
    && match u
       case AddServer(_, _) => false
       case DropServer(_, path) => PathOf(path).Ok? && t.alias2path[u.name].isServer
       case SetClient(_, gpath, _) => gpath == []
  }

  function EntryOf(t: Tables, u: Update): AliasEntry
    requires Binds(t, u)
  {
    match u
    case AddServer(name, path) => AliasEntry(name, path, PathOf(path).value, true)
    case SetClient(name, gpath, text) => AliasEntry(name, text, gpath, false)
  }

  function Apply(t: Tables, u: Update): Tables {
    if Binds(t, u) then Bind(t, EntryOf(t, u))
    else if Unbinds(t, u) then Unbind(t, u.name)
    else t
  }

  function RunFrom(t: Tables, updates: seq<Update>): Tables {
    if updates == [] then t else Apply(RunFrom(t, Init(updates)), Last(updates))
  }

  const EMPTY := Tables(map[], map[])

  function ToPath(t: Tables, alias: string): string {
    if alias in t.alias2path then t.alias2path[alias].path else alias
  }

  function ToAlias(t: Tables, path: string): string {
    if path in t.path2alias then t.path2alias[path].name else path
  }

  // ---------------------------------------------------------------- what every run keeps

  /** Every entry of path2alias sits under its own path and is the entry of its name. */
  ghost predicate Consistent(t: Tables) {
    && (forall n :: n in t.alias2path ==> t.alias2path[n].name == n && IsName(n))
    && (forall p :: p in t.path2alias ==> IsEntry(t, t.path2alias[p]) && t.path2alias[p].path == p)
  }

  predicate IsEntry(t: Tables, e: AliasEntry) {
    e.name in t.alias2path && t.alias2path[e.name] == e
  }

  lemma StepConsistent(t: Tables, u: Update)
    requires Consistent(t)
    ensures Consistent(Apply(t, u))
  {
    hide PathOf, IsName;
    var after := Apply(t, u);
    forall p | p in after.path2alias
      ensures IsEntry(after, after.path2alias[p]) && after.path2alias[p].path == p
    {
      assert p in t.path2alias ==> IsEntry(t, t.path2alias[p]);
    }
  }

  lemma {:induction false} RunConsistent(updates: seq<Update>)
    ensures Consistent(RunFrom(EMPTY, updates))
  {
    if updates != [] {
      RunConsistent(Init(updates));
      StepConsistent(RunFrom(EMPTY, Init(updates)), Last(updates));
    }
  }

  /** After every run, going to the alias and back gives the path again, but for a path that is itself the name of an
      alias to another path and has no alias of its own. */
  lemma PathRoundTrip(updates: seq<Update>, p: string)
    ensures var t := RunFrom(EMPTY, updates);
            ToPath(t, ToAlias(t, p)) == p
            <==> p !in t.alias2path || p in t.path2alias || t.alias2path[p].path == p
  {
    RunConsistent(updates);
    var t := RunFrom(EMPTY, updates);
    if p in t.path2alias {
      assert IsEntry(t, t.path2alias[p]);
    }
  }

  /** Every alias is the alias of its path. */
  ghost predicate FullInverse(t: Tables) {
    forall n :: n in t.alias2path ==> HasOwnPath(t, n)
  }

  predicate HasOwnPath(t: Tables, n: string)
    requires n in t.alias2path
  {
    var p := t.alias2path[n].path;
    p in t.path2alias && t.path2alias[p] == t.alias2path[n]
  }

  /** A new server alias names a path that another alias already has. */
  predicate Clashes(t: Tables, u: Update) {
    u.AddServer? && Binds(t, u) && u.path in t.path2alias
  }

  /** One update keeps the two tables inverse to each other exactly when it does not clash. */
  lemma StepInverseExact(t: Tables, u: Update)
    requires Consistent(t) && FullInverse(t)
    ensures FullInverse(Apply(t, u)) <==> !Clashes(t, u)
  {
    var after := Apply(t, u);
    if Clashes(t, u) {
      var other := t.path2alias[u.path];
      assert IsEntry(t, other);
      assert other.name in after.alias2path && !HasOwnPath(after, other.name);
    } else {
      forall n | n in after.alias2path
        ensures HasOwnPath(after, n)
      {
        if n in t.alias2path {
          assert HasOwnPath(t, n);
          if Unbinds(t, u) {
            assert HasOwnPath(t, u.name);
          }
        }
      }
    }
  }

  ghost predicate NeverClashes(updates: seq<Update>) {
    updates != [] ==> NeverClashes(Init(updates)) && !Clashes(RunFrom(EMPTY, Init(updates)), Last(updates))
  }

  /** As long as no server alias names a path that already has an alias, the two tables invert each other. */
  lemma {:induction false} RunInverse(updates: seq<Update>, n: string)
    requires NeverClashes(updates)
    ensures var t := RunFrom(EMPTY, updates);
            && FullInverse(t)
            && (n in t.alias2path ==> ToAlias(t, ToPath(t, n)) == n)
  {
    RunConsistent(updates);
    if updates != [] {
      RunInverse(Init(updates), n);
      RunConsistent(Init(updates));
      StepInverseExact(RunFrom(EMPTY, Init(updates)), Last(updates));
    }
    var t := RunFrom(EMPTY, updates);
    if n in t.alias2path {
      assert HasOwnPath(t, n);
    }
  }

  // ---------------------------------------------------------------- aliases of gNMI paths

  /** ToAlias of a gNMI path, found under its text. */
  function ToAliasElems(t: Tables, p: Path, text: string): Path {
    if text in t.path2alias then [Elem(t.path2alias[text].name, map[])] else p
  }

  /** ToPath of a gNMI path looks at the first element only. */
  function ToPathElems(t: Tables, p: Path): Path {
    if p != [] && IsName(p[0].name) && p[0].name in t.alias2path then t.alias2path[p[0].name].gpath else p
  }

  /** The text of a client alias is read back as its path. */
  predicate ReadsBack(u: Update) {
    u.SetClient? ==> PathOf(u.text) == Ok(u.gpath)
  }

  ghost predicate Readable(t: Tables) {
    forall n :: n in t.alias2path ==> PathOf(t.alias2path[n].path) == Ok(t.alias2path[n].gpath)
  }

  lemma {:induction false} RunReadable(updates: seq<Update>)
    requires forall u :: u in updates ==> ReadsBack(u)
    ensures Readable(RunFrom(EMPTY, updates))
  {
    if updates != [] {
      RunReadable(Init(updates));
      assert ReadsBack(Last(updates));
    }
  }

  /** A plain gNMI path comes back from its alias, whatever order its keys are printed in. */
  lemma ElemsRoundTrip(updates: seq<Update>, p: Path, orders: seq<seq<string>>)
    requires forall u :: u in updates ==> ReadsBack(u)
    requires AreOrders(orders, p) && forall e :: e in p ==> IsPlain(e)
    ensures var t := RunFrom(EMPTY, updates);
            ToPathElems(t, ToAliasElems(t, p, Printed(p, orders))) == p
  {
    RunConsistent(updates);
    RunReadable(updates);
    PrintThenParse(p, orders);
    if p != [] {
      PlainIsNoName(p[0]);
    }
    hide RunFrom, Printed, AreOrders, PathOf, IsPlain;
    ElemsBack(RunFrom(EMPTY, updates), p, Printed(p, orders));
  }

  lemma PlainIsNoName(e: Elem)
    requires IsPlain(e)
    ensures !IsName(e.name)
  {
  }

  lemma ElemsBack(t: Tables, p: Path, text: string)
    requires Consistent(t) && Readable(t) && PathOf(text) == Ok(p) && (p != [] ==> !IsName(p[0].name))
    ensures ToPathElems(t, ToAliasElems(t, p, text)) == p
  {
    hide PathOf, IsName;
    if text in t.path2alias {
      var e := t.path2alias[text];
      assert IsEntry(t, e) && e.path == text;
    }
  }

  // ---------------------------------------------------------------- server and client aliases

  /** The i-th update made the alias n that is there now. */
  ghost predicate Made(updates: seq<Update>, i: nat, n: string) {
    && i < |updates| && updates[i].name == n && n !in RunFrom(EMPTY, updates[..i]).alias2path
    && forall j :: i < j <= |updates| ==> n in RunFrom(EMPTY, updates[..j]).alias2path
  }

  /** After every run an alias was made by one update: a server alias by adding one, a client alias by setting one, with
      the path that was given. */
  lemma {:induction false} MadeExact(updates: seq<Update>, n: string) returns (i: nat)
    requires n in RunFrom(EMPTY, updates).alias2path
    ensures Made(updates, i, n)
    ensures var e := RunFrom(EMPTY, updates).alias2path[n];
            match updates[i]
            case AddServer(_, path) => e == AliasEntry(n, path, e.gpath, true) && PathOf(path) == Ok(e.gpath)
            case SetClient(_, gpath, text) => e == AliasEntry(n, text, gpath, false) && gpath != []
            case DropServer(_, _) => false
    decreases |updates|
  {
    hide PathOf, IsName;
    var front, u := Init(updates), Last(updates);
    var before := RunFrom(EMPTY, front);
    assert front == updates[..|updates| - 1] && updates[..|updates|] == updates;
    if n in before.alias2path {
      i := MadeExact(front, n);
      assert forall j :: 0 <= j <= |front| ==> front[..j] == updates[..j];
      StillSame(before, u, n);
    } else {
      i := |updates| - 1;
    }
  }

  lemma StillSame(t: Tables, u: Update, n: string)
    requires n in t.alias2path && n in Apply(t, u).alias2path
    ensures Apply(t, u).alias2path[n] == t.alias2path[n]
  {
    hide PathOf, IsName;
  }

  /** Setting a client alias to an empty path takes the alias away, with its path, and no other. */
  lemma EmptyPathDeletes(updates: seq<Update>, n: string, text: string)
    requires n in RunFrom(EMPTY, updates).alias2path
    ensures var t, u := RunFrom(EMPTY, updates), RunFrom(EMPTY, updates + [SetClient(n, [], text)]);
            && u.alias2path == t.alias2path - {n} && u.path2alias == t.path2alias - {t.alias2path[n].path}
  {
    RunConsistent(updates);
    assert Init(updates + [SetClient(n, [], text)]) == updates;
    hide IsName;
  }

  /** The name of an alias starts with '#'. */
  lemma NamesHash(updates: seq<Update>, n: string)
    requires n in RunFrom(EMPTY, updates).alias2path
    ensures n != "" && n[0] == '#'
  {
    RunConsistent(updates);
    assert IsName(n);
  }

  // ---------------------------------------------------------------- the tables as an object

  function ServerUpdate(name: string, path: string, add: bool): Update {
    if add then AddServer(name, path) else DropServer(name, path)
  }

  /** The updates are those of the server aliases that are done, each one once. */
  ghost predicate Walks(updates: seq<Update>, serverAliases: map<string, string>, done: set<string>, add: bool) {
    && |updates| == |done| && done <= serverAliases.Keys
    && (forall u :: u in updates ==>
          u.name in done && u == ServerUpdate(u.name, serverAliases[u.name], add))
    && (forall n :: n in done ==> ServerUpdate(n, serverAliases[n], add) in updates)
  }

  /** The names that the updates really added or removed, in order. */
  function Updated(t: Tables, updates: seq<Update>): seq<string> {
    if updates == [] then []
    else
      var before, u := RunFrom(t, Init(updates)), Last(updates);
      Updated(t, Init(updates)) + if Binds(before, u) || Unbinds(before, u) then [u.name] else []
  }

  lemma UpdatesSnoc(t: Tables, updates: seq<Update>, u: Update)
    ensures RunFrom(t, updates + [u]) == Apply(RunFrom(t, updates), u)
    ensures var before := RunFrom(t, updates);
            Updated(t, updates + [u])
            == if Binds(before, u) || Unbinds(before, u) then Updated(t, updates) + [u.name] else Updated(t, updates)
  {
    assert Init(updates + [u]) == updates;
    assert Updated(t, updates) + [] == Updated(t, updates);
  }

  /** The update is about the server alias n, and its path can be read. */
  predicate Usable(u: Update, n: string) {
    !u.SetClient? && u.name == n && IsName(n) && PathOf(u.path).Ok?
  }

  predicate SomeUsable(updates: seq<Update>, n: string) {
    exists i :: 0 <= i < |updates| && Usable(updates[i], n)
  }

  lemma SomeUsableMore(updates: seq<Update>, n: string)
    requires updates != []
    ensures SomeUsable(updates, n) <==> SomeUsable(Init(updates), n) || Usable(Last(updates), n)
  {
    hide Usable;
    var last := |updates| - 1;
    assert forall i :: 0 <= i < last ==> Init(updates)[i] == updates[i];
    if SomeUsable(Init(updates), n) {
      var i :| 0 <= i < last && Usable(Init(updates)[i], n);
      assert Usable(updates[i], n);
    }
  }

  /** Whatever order they come in, adding server aliases gives a name to exactly those whose path can be read,
      and leaves the names alone that were there before. */
  lemma {:induction false} ServerNamesAdded(t: Tables, updates: seq<Update>, n: string)
    requires forall i :: 0 <= i < |updates| ==> updates[i].AddServer?
    ensures n in RunFrom(t, updates).alias2path <==> n in t.alias2path || SomeUsable(updates, n)
    ensures n in t.alias2path ==> RunFrom(t, updates).alias2path[n] == t.alias2path[n]
  {
    if updates != [] {
      ServerNamesAdded(t, Init(updates), n);
      SomeUsableMore(updates, n);
      hide PathOf, IsName, SomeUsable;
    }
  }

  /** Dropping server aliases takes away exactly the server aliases among the names, and no client alias. */
  lemma {:induction false} ServerNamesDropped(t: Tables, updates: seq<Update>, n: string)
    requires forall i :: 0 <= i < |updates| ==> updates[i].DropServer?
    ensures n in RunFrom(t, updates).alias2path
            <==> n in t.alias2path && (t.alias2path[n].isServer ==> !SomeUsable(updates, n))
    ensures n in RunFrom(t, updates).alias2path ==> RunFrom(t, updates).alias2path[n] == t.alias2path[n]
  {
    if updates != [] {
      ServerNamesDropped(t, Init(updates), n);
      SomeUsableMore(updates, n);
      hide PathOf, IsName, SomeUsable;
    }
  }

  lemma WalksMore(updates: seq<Update>, serverAliases: map<string, string>, done: set<string>, add: bool, name: string)
    requires Walks(updates, serverAliases, done, add) && name in serverAliases && name !in done
    ensures Walks(updates + [ServerUpdate(name, serverAliases[name], add)], serverAliases, done + {name}, add)
  {
    var u := ServerUpdate(name, serverAliases[name], add);
    var all := updates + [u];
    forall v | v in all
      ensures v.name in done + {name} && v == ServerUpdate(v.name, serverAliases[v.name], add)
    {
      assert v in updates || v == u;
    }
    forall n | n in done + {name}
      ensures ServerUpdate(n, serverAliases[n], add) in all
    {
      if n == name {
        assert all[|updates|] == u;
      }
    }
  }

  /** The updates set the first of these client aliases, one after the other. */
  ghost predicate SetInOrder(updates: seq<Update>, names: seq<string>, aliases: seq<(string, Path)>) {
    && |updates| == |names| <= |aliases|
    && forall i :: 0 <= i < |updates| ==>
         updates[i].SetClient? && updates[i].name == names[i] == aliases[i].0 && updates[i].gpath == aliases[i].1
  }

  lemma SetInOrderMore(updates: seq<Update>, names: seq<string>, aliases: seq<(string, Path)>, u: Update)
    requires SetInOrder(updates, names, aliases) && |updates| < |aliases|
    requires u.SetClient? && u.name == aliases[|updates|].0 && u.gpath == aliases[|updates|].1
    ensures SetInOrder(updates + [u], names + [u.name], aliases)
  {
  }

  /** gnmipb.Path. */
  class GnmiPath {
    var elem: Path
    const target: string
    const origin: string

    constructor (elem: Path, target: string, origin: string)
      ensures this.elem == elem && this.target == target && this.origin == origin
    {
      this.elem, this.target, this.origin := elem, target, origin;
    }
  }

  class ClientAliases {
    var alias2path: map<string, AliasEntry>
    var path2alias: map<string, AliasEntry>
    var useServerAliases: bool

    function State(): Tables
      reads this
    {
      Tables(alias2path, path2alias)
    }

    constructor ()
      ensures State() == EMPTY && !useServerAliases
    {
      alias2path, path2alias, useServerAliases := map[], map[], false;
    }

    /** updateServerAliases: the server aliases come in any order. */
    method UpdateServerAliases(serverAliases: map<string, string>, add: bool)
      returns (aliaslist: seq<string>, ghost updates: seq<Update>)
      modifies this
      ensures Walks(updates, serverAliases, serverAliases.Keys, add)
      ensures State() == RunFrom(old(State()), updates) && useServerAliases == add
      ensures aliaslist == Updated(old(State()), updates)
    {
      aliaslist, updates := [], [];
      ghost var start := State();
      ghost var done: set<string> := {};
      var todo := serverAliases.Keys;
      assert Walks([], serverAliases, done, add) && RunFrom(start, []) == start && Updated(start, []) == [];
      PartitionStart(serverAliases.Keys);
      hide Walks, RunFrom, Updated, Apply, Binds, Unbinds, Partition;
      while todo != {}
        invariant Partition(serverAliases.Keys, done, todo)
        invariant Walks(updates, serverAliases, done, add)
        invariant State() == RunFrom(start, updates) && aliaslist == Updated(start, updates)
        decreases |todo|
      {
        var name :| name in todo;
        PartitionMore(serverAliases.Keys, done, todo, name);
        ghost var u := ServerUpdate(name, serverAliases[name], add);
        WalksMore(updates, serverAliases, done, add, name);
        UpdatesSnoc(start, updates, u);
        var changed := UpdateServerAlias(name, serverAliases[name], add);
        if changed {
          aliaslist := aliaslist + [name];
        }
        updates := updates + [u];
        todo := todo - {name};
        done := done + {name};
      }
      PartitionEnd(serverAliases.Keys, done);
      useServerAliases := add;
    }

    /** One round of the loop in updateServerAliases. */
    method UpdateServerAlias(name: string, path: string, add: bool) returns (changed: bool)
      modifies this`alias2path, this`path2alias
      ensures var u := ServerUpdate(name, path, add);
              && State() == Apply(old(State()), u)
              && changed == (Binds(old(State()), u) || Unbinds(old(State()), u))
    {
      changed := false;
      if !HasPrefix(name, "#") {
        return;
      }
      var gpath := ToGNMIPath(path);
      if gpath.Err? {
        return;
      }
      if add {
        if name !in alias2path {
          var ca := AliasEntry(name, path, gpath.value, true);
          path2alias := path2alias[path := ca];
          alias2path := alias2path[name := ca];
          changed := true;
        }
      } else if name in alias2path && alias2path[name].isServer {
        var ca := alias2path[name];
        alias2path := alias2path - {name};
        path2alias := path2alias - {ca.path};
        changed := true;
      }
    }

    /** updateClientAlias: fails, and changes nothing, for a bad name and for a name or a path that is taken. */
    method UpdateClientAlias(name: string, gpath: Path) returns (ok: bool, ghost u: Update)
      modifies this`alias2path, this`path2alias
      ensures u.SetClient? && u.name == name && u.gpath == gpath
      ensures gpath != [] && IsName(name) ==> exists orders :: AreOrders(orders, gpath) && u.text == Printed(gpath, orders)
      ensures State() == Apply(old(State()), u)
      ensures ok <==> HasPrefix(name, "#") && (gpath == [] || (name !in old(alias2path) && u.text !in old(path2alias)))
      ensures !ok ==> State() == old(State())
    {
      u := SetClient(name, gpath, "");
      if name == "" || !HasPrefix(name, "#") {
        return false, u;
      }
      if gpath == [] {
        if name in alias2path {
          var ca := alias2path[name];
          alias2path := alias2path - {name};
          path2alias := path2alias - {ca.path};
        }
        return true, u;
      }
      var path, orders := ToXPath(gpath);
      u := SetClient(name, gpath, path);
      if path in path2alias || name in alias2path {
        return false, u;
      }
      var ca := AliasEntry(name, path, gpath, false);
      path2alias := path2alias[path := ca];
      alias2path := alias2path[name := ca];
      ok := true;
    }

    /** updateClientAliases stops at the first alias that fails, and keeps what came before it. */
    method UpdateClientAliases(aliases: seq<(string, Path)>) returns (aliasname: seq<string>, ok: bool, ghost updates: seq<Update>)
      modifies this`alias2path, this`path2alias
      ensures State() == RunFrom(old(State()), updates)
      ensures SetInOrder(updates, aliasname, aliases) && (ok <==> |updates| == |aliases|)
    {
      aliasname, updates := [], [];
      ghost var start := State();
      assert SetInOrder([], [], aliases);
      hide Apply, Binds, SetInOrder, RunFrom, Updated;
      for i := 0 to |aliases|
        invariant |updates| == i && SetInOrder(updates, aliasname, aliases)
        invariant State() == RunFrom(start, updates)
      {
        ghost var u;
        ok, u := UpdateClientAlias(aliases[i].0, aliases[i].1);
        if !ok {
          return;
        }
        UpdatesSnoc(start, updates, u);
        SetInOrderMore(updates, aliasname, aliases, u);
        updates := updates + [u];
        aliasname := aliasname + [aliases[i].0];
      }
      ok := true;
    }

    /** ToPath of a gNMI path, which it rewrites. */
    method ToPathInPlace(a: GnmiPath)
      modifies a
      ensures a.elem == ToPathElems(State(), old(a.elem))
      ensures a.elem == if old(a.elem) != [] && HasPrefix(old(a.elem)[0].name, "#") && old(a.elem)[0].name in alias2path
                        then alias2path[old(a.elem)[0].name].gpath else old(a.elem)
    {
      if a.elem != [] && HasPrefix(a.elem[0].name, "#") {
        if a.elem[0].name in alias2path {
          a.elem := alias2path[a.elem[0].name].gpath;
        }
      }
    }

    /** ToAlias of a gNMI path keeps the target and the origin. */
    method ToAliasPath(gpath: GnmiPath) returns (r: GnmiPath, ghost text: string)
      ensures exists orders :: AreOrders(orders, gpath.elem) && text == Printed(gpath.elem, orders)
      ensures r.elem == ToAliasElems(State(), gpath.elem, text)
      ensures r.elem == if text in path2alias then [Elem(path2alias[text].name, map[])] else gpath.elem
      ensures r.target == gpath.target && r.origin == gpath.origin
      ensures r == gpath || fresh(r)
    {
      var p, orders := ToXPath(gpath.elem);
      text := p;
      if p in path2alias {
        r := new GnmiPath([Elem(path2alias[p].name, map[])], gpath.target, gpath.origin);
      } else {
        r := gpath;
      }
    }
  }
}
