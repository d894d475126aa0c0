/** gnmi/model/model.go: matching path patterns against the schema tree.
    '*' stands for one level, '...' for one level or more. One enumerator lists the schema paths,
    another the paths with keys, and a validator only asks whether there is a match. */
module Wildcards {
  import opened Text
  import opened XPath
  import opened KeyValues
  import opened PathText
  import opened Schema

  const STAR := "*"
  const DOTS := "..."

  predicate IsWild(e: Elem) { e.name == STAR || e.name == DOTS }

  /** The check on key names: each occurs somewhere in the key text of the node. */
  predicate KeysAllowed(entry: Entry, keys: map<string, string>) {
    forall k :: k in keys ==> Contains(entry.key, k)
  }

  /** The siblings of a map have different names, all the way down. */
  ghost predicate UniqueNames(entry: Entry) {
    && (forall i, j :: 0 <= i < j < |entry.dir| ==> entry.dir[i].0 != entry.dir[j].0)
    && forall i :: 0 <= i < |entry.dir| ==> UniqueNames(entry.dir[i].1)
  }

  // ---------------------------------------------------------------- what a pattern means

  function Total(widths: seq<nat>): nat {
    if widths == [] then 0 else widths[0] + Total(widths[1..])
  }

  /** The element e accepts the w levels of the path that start at level at. */
  ghost predicate Accepts(root: Entry, e: Elem, path: seq<string>, at: nat, w: nat) {
    && 1 <= w && at + w <= |path|
    && (e.name != DOTS ==> w == 1)
    && (!IsWild(e) ==>
          && path[at] == e.name
          && Descend(root, path[..at + 1]).Some?
          && KeysAllowed(Descend(root, path[..at + 1]).value, e.keys))
  }

  /** The path leads to a node, and the i-th element of the pattern accepts widths[i] of its levels. */
  ghost predicate Fits(root: Entry, elems: Path, path: seq<string>, widths: seq<nat>) {
    && Descend(root, path).Some?
    && |widths| == |elems|
    && Total(widths) == |path|
    && forall i :: 0 <= i < |elems| ==> Accepts(root, elems[i], path, Total(widths[..i]), widths[i])
  }

  ghost predicate Matches(root: Entry, elems: Path, path: seq<string>) {
    exists widths :: Fits(root, elems, path, widths)
  }

  // ---------------------------------------------------------------- the nodes that match

  /** One level of a match: the name of the node, and the keys given for it as text. */
  datatype Level = Level(name: string, keyText: string)
  type Node = seq<Level>

  function NamesOf(node: Node): seq<string> {
    seq(|node|, i requires 0 <= i < |node| => node[i].name)
  }

  function KeyedNamesOf(node: Node): seq<string> {
    seq(|node|, i requires 0 <= i < |node| => node[i].name + node[i].keyText)
  }

  /** strings.Split(s, " "). */
  function Fields(s: string): seq<string>
    decreases |s|
  {
    var i := IndexOf(s, ' ');
    if i == |s| then [s] else [s[..i]] + Fields(s[i + 1..])
  }

  /** The keys given for a list, as text, up to the first that is missing or '*'. */
  function KeyText(names: seq<string>, keys: map<string, string>): string {
    if names == [] || names[0] !in keys || keys[names[0]] == STAR then ""
    else PairText(names[0], keys[names[0]]) + KeyText(names[1..], keys)
  }

  function Prepend(level: Level, nodes: seq<Node>): seq<Node> {
    seq(|nodes|, i requires 0 <= i < |nodes| => [level] + nodes[i])
  }

  /** The nodes below parent that match the pattern, in the order in which they are met. */
  function Nodes(parent: Entry, elems: Path): seq<Node>
    decreases parent, 1, 0
  {
    if elems == [] then [[]]
    else if IsWild(elems[0]) then NodesBelow(parent, elems, 0)
    else
      var entry := Child(parent, elems[0].name);
      if entry.None? || !KeysAllowed(entry.value, elems[0].keys) then []
      else
        assert (elems[0].name, entry.value) in parent.dir;
        Prepend(Level(elems[0].name, KeyText(Fields(entry.value.key), elems[0].keys)),
                Nodes(entry.value, elems[1..]))
  }

  /** What a wildcard finds in the children from the i-th on. */
  function NodesBelow(parent: Entry, elems: Path, i: nat): seq<Node>
    requires elems != [] && i <= |parent.dir|
    decreases parent, 0, |parent.dir| - i
  {
    if i == |parent.dir| then []
    else
      var (name, entry) := parent.dir[i];
      Prepend(Level(name, ""), Nodes(entry, elems[1..]))
      + (if elems[0].name == DOTS then Prepend(Level(name, ""), Nodes(entry, elems)) else [])
      + NodesBelow(parent, elems, i + 1)
  }

  function SchemaText(prefix: string, node: Node): string {
    prefix + Slashed(NamesOf(node))
  }

  function KeyedText(prefix: string, node: Node): string {
    prefix + Slashed(KeyedNamesOf(node))
  }

  function SchemaTexts(prefix: string, nodes: seq<Node>): seq<string> {
    seq(|nodes|, i requires 0 <= i < |nodes| => SchemaText(prefix, nodes[i]))
  }

  function KeyedTexts(prefix: string, nodes: seq<Node>): seq<string> {
    seq(|nodes|, i requires 0 <= i < |nodes| => KeyedText(prefix, nodes[i]))
  }

  lemma SchemaTextPrepend(prefix: string, level: Level, node: Node)
    ensures SchemaText(prefix, [level] + node) == SchemaText(prefix + "/" + level.name, node)
  {
    assert NamesOf([level] + node) == [level.name] + NamesOf(node);
    assert ([level.name] + NamesOf(node))[1..] == NamesOf(node);
  }

  lemma SchemaTextsPrepend(prefix: string, level: Level, nodes: seq<Node>)
    ensures SchemaTexts(prefix, Prepend(level, nodes)) == SchemaTexts(prefix + "/" + level.name, nodes)
  {
    forall i | 0 <= i < |nodes|
      ensures SchemaTexts(prefix, Prepend(level, nodes))[i] == SchemaTexts(prefix + "/" + level.name, nodes)[i]
    {
      SchemaTextPrepend(prefix, level, nodes[i]);
    }
  }

  lemma KeyedTextPrepend(prefix: string, level: Level, node: Node)
    ensures KeyedText(prefix, [level] + node) == KeyedText(prefix + "/" + (level.name + level.keyText), node)
  {
    var rest := KeyedNamesOf(node);
    assert KeyedNamesOf([level] + node) == [level.name + level.keyText] + rest;
    assert ([level.name + level.keyText] + rest)[1..] == rest;
  }

  lemma KeyedTextsPrepend(prefix: string, level: Level, nodes: seq<Node>)
    ensures KeyedTexts(prefix, Prepend(level, nodes)) ==
            KeyedTexts(prefix + "/" + (level.name + level.keyText), nodes)
  {
    forall i | 0 <= i < |nodes|
      ensures KeyedTexts(prefix, Prepend(level, nodes))[i] ==
              KeyedTexts(prefix + "/" + (level.name + level.keyText), nodes)[i]
    {
      KeyedTextPrepend(prefix, level, nodes[i]);
    }
  }

  lemma TextsConcat(prefix: string, a: seq<Node>, b: seq<Node>)
    ensures SchemaTexts(prefix, a + b) == SchemaTexts(prefix, a) + SchemaTexts(prefix, b)
    ensures KeyedTexts(prefix, a + b) == KeyedTexts(prefix, a) + KeyedTexts(prefix, b)
  {
  }

  /** The texts found in the i-th child come before those found in the children after it. */
  lemma BelowTexts(prefix: string, parent: Entry, elems: Path, i: nat)
    requires elems != [] && i < |parent.dir|
    ensures var (name, entry) := parent.dir[i];
            SchemaTexts(prefix, NodesBelow(parent, elems, i)) ==
            SchemaTexts(prefix + "/" + name, Nodes(entry, elems[1..]))
            + (if elems[0].name == DOTS then SchemaTexts(prefix + "/" + name, Nodes(entry, elems)) else [])
            + SchemaTexts(prefix, NodesBelow(parent, elems, i + 1))
    ensures var (name, entry) := parent.dir[i];
            KeyedTexts(prefix, NodesBelow(parent, elems, i)) ==
            KeyedTexts(prefix + "/" + name, Nodes(entry, elems[1..]))
            + (if elems[0].name == DOTS then KeyedTexts(prefix + "/" + name, Nodes(entry, elems)) else [])
            + KeyedTexts(prefix, NodesBelow(parent, elems, i + 1))
  {
    var (name, entry) := parent.dir[i];
    var level := Level(name, "");
    var one, rest := Nodes(entry, elems[1..]), NodesBelow(parent, elems, i + 1);
    var more := if elems[0].name == DOTS then Nodes(entry, elems) else [];
    assert NodesBelow(parent, elems, i) == Prepend(level, one) + Prepend(level, more) + rest;
    assert name + "" == name;
    hide Nodes, NodesBelow;
    SchemaTextsPrepend(prefix, level, one);
    SchemaTextsPrepend(prefix, level, more);
    KeyedTextsPrepend(prefix, level, one);
    KeyedTextsPrepend(prefix, level, more);
    TextsConcat(prefix, Prepend(level, one) + Prepend(level, more), rest);
    TextsConcat(prefix, Prepend(level, one), Prepend(level, more));
  }

  lemma ConcatAll<T>(a: seq<T>, b: seq<T>, c: seq<T>, d: seq<T>)
    ensures a + (b + c + d) == a + b + c + d
  {
  }

  lemma EmptyTexts(prefix: string)
    ensures SchemaTexts(prefix, [[]]) == [prefix] && KeyedTexts(prefix, [[]]) == [prefix]
  {
    var node: Node := [];
    assert NamesOf(node) == [] && KeyedNamesOf(node) == [] && prefix + "" == prefix;
    assert SchemaText(prefix, node) == prefix && KeyedText(prefix, node) == prefix;
  }

  /** What the enumerators do for the first element of the pattern. */
  lemma NodesUnfold(prefix: string, parent: Entry, elems: Path)
    ensures elems == [] ==> SchemaTexts(prefix, Nodes(parent, elems)) == [prefix]
    ensures elems == [] ==> KeyedTexts(prefix, Nodes(parent, elems)) == [prefix]
    ensures elems != [] && IsWild(elems[0]) ==> Nodes(parent, elems) == NodesBelow(parent, elems, 0)
    ensures elems != [] && !IsWild(elems[0]) ==>
              var e, entry := elems[0], Child(parent, elems[0].name);
              if entry.None? || !KeysAllowed(entry.value, e.keys) then Nodes(parent, elems) == []
              else
                var text := KeyText(Fields(entry.value.key), e.keys);
                && (e.name, entry.value) in parent.dir
                && SchemaTexts(prefix, Nodes(parent, elems)) ==
                   SchemaTexts(prefix + "/" + e.name, Nodes(entry.value, elems[1..]))
                && KeyedTexts(prefix, Nodes(parent, elems)) ==
                   KeyedTexts(prefix + "/" + (e.name + text), Nodes(entry.value, elems[1..]))
  {
    if elems == [] {
      EmptyTexts(prefix);
    } else if !IsWild(elems[0]) {
      var entry := Child(parent, elems[0].name);
      if entry.Some? && KeysAllowed(entry.value, elems[0].keys) {
        var level := Level(elems[0].name, KeyText(Fields(entry.value.key), elems[0].keys));
        var found := Nodes(entry.value, elems[1..]);
        assert Nodes(parent, elems) == Prepend(level, found);
        hide Nodes, KeysAllowed, Fields, KeyText;
        SchemaTextsPrepend(prefix, level, found);
        KeyedTextsPrepend(prefix, level, found);
      }
    }
  }

  // ---------------------------------------------------------------- the enumerators and the validator

  method FindSchemaPath(prefix: string, parent: Entry, elems: Path) returns (founds: seq<string>)
    ensures founds == SchemaTexts(prefix, Nodes(parent, elems))
    decreases parent
  {
    NodesUnfold(prefix, parent, elems);
    NoneBelow(parent, elems);
    hide Nodes, NodesBelow, Fields, KeyText, KeysAllowed, SchemaTexts, KeyedTexts;
    if |elems| == 0 {
      return [prefix];
    }
    if |parent.dir| == 0 {
      return [];
    }
    var e := elems[0];
    if e.name == STAR || e.name == DOTS {
      founds := [];
      for i := 0 to |parent.dir|
        invariant founds + SchemaTexts(prefix, NodesBelow(parent, elems, i)) ==
                  SchemaTexts(prefix, Nodes(parent, elems))
      {
        var (cname, centry) := parent.dir[i];
        BelowTexts(prefix, parent, elems, i);
        var found := FindSchemaPath(prefix + "/" + cname, centry, elems[1..]);
        var more := [];
        if e.name == DOTS {
          more := FindSchemaPath(prefix + "/" + cname, centry, elems);
        }
        ConcatAll(founds, found, more, SchemaTexts(prefix, NodesBelow(parent, elems, i + 1)));
        founds := founds + found + more;
      }
      return founds;
    }
    var entry := Child(parent, e.name);
    if entry.None? {
      return [];
    }
    if !KeysAllowed(entry.value, e.keys) {
      return [];
    }
    founds := FindSchemaPath(prefix + "/" + e.name, entry.value, elems[1..]);
  }

  lemma NoneBelow(parent: Entry, elems: Path)
    ensures SchemaTexts("", []) == [] && KeyedTexts("", []) == []
    ensures forall p :: SchemaTexts(p, []) == [] && KeyedTexts(p, []) == []
    ensures elems != [] ==> NodesBelow(parent, elems, |parent.dir|) == []
    ensures elems != [] && parent.dir == [] ==> Nodes(parent, elems) == []
  {
  }

  /** The path of one list element with its keys, as findPaths writes it. */
  method NameWithKeys(e: Elem, entry: Entry) returns (name: string)
    ensures name == e.name + KeyText(Fields(entry.key), e.keys)
  {
    name := e.name;
    var knames := Fields(entry.key);
    for i := 0 to |knames|
      invariant name + KeyText(knames[i..], e.keys) == e.name + KeyText(knames, e.keys)
    {
      assert knames[i..][1..] == knames[i + 1..];
      var kname := knames[i];
      if kname in e.keys {
        if e.keys[kname] == STAR {
          assert KeyText(knames[i..], e.keys) == "";
          assert name + "" == name;
          return;
        }
        ConcatAssoc(name, PairText(kname, e.keys[kname]), KeyText(knames[i + 1..], e.keys));
        name := name + PairText(kname, e.keys[kname]);
      } else {
        assert KeyText(knames[i..], e.keys) == "";
        assert name + "" == name;
        return;
      }
    }
  }

  method FindPaths(prefix: string, parent: Entry, elems: Path) returns (founds: seq<string>)
    ensures founds == KeyedTexts(prefix, Nodes(parent, elems))
    decreases parent
  {
    NodesUnfold(prefix, parent, elems);
    NoneBelow(parent, elems);
    hide Nodes, NodesBelow, Fields, KeyText, KeysAllowed, SchemaTexts, KeyedTexts;
    if |elems| == 0 {
      return [prefix];
    }
    if |parent.dir| == 0 {
      return [];
    }
    var e := elems[0];
    if e.name == STAR || e.name == DOTS {
      founds := [];
      for i := 0 to |parent.dir|
        invariant founds + KeyedTexts(prefix, NodesBelow(parent, elems, i)) ==
                  KeyedTexts(prefix, Nodes(parent, elems))
      {
        var (cname, centry) := parent.dir[i];
        BelowTexts(prefix, parent, elems, i);
        var found := FindPaths(prefix + "/" + cname, centry, elems[1..]);
        var more := [];
        if e.name == DOTS {
          more := FindPaths(prefix + "/" + cname, centry, elems);
        }
        ConcatAll(founds, found, more, KeyedTexts(prefix, NodesBelow(parent, elems, i + 1)));
        founds := founds + found + more;
      }
      return founds;
    }
    var entry := Child(parent, e.name);
    if entry.None? {
      return [];
    }
    if !KeysAllowed(entry.value, e.keys) {
      return [];
    }
    var name := NameWithKeys(e, entry.value);
    founds := FindPaths(prefix + "/" + name, entry.value, elems[1..]);
  }

  /** The wildcard at the head of elems finds nothing in this child. */
  predicate NothingIn(child: Entry, elems: Path)
    requires elems != []
  {
    Nodes(child, elems[1..]) == [] && (elems[0].name == DOTS ==> Nodes(child, elems) == [])
  }

  lemma {:induction false} NothingBelow(entry: Entry, elems: Path, i: nat)
    requires elems != [] && i <= |entry.dir|
    ensures NodesBelow(entry, elems, i) == [] <==>
            forall j :: i <= j < |entry.dir| ==> NothingIn(entry.dir[j].1, elems)
    decreases |entry.dir| - i
  {
    hide *;
    if i < |entry.dir| {
      NothingStep(entry, elems, i);
      NothingBelow(entry, elems, i + 1);
    } else {
      NothingLeft(entry, elems);
    }
  }

  lemma NothingLeft(entry: Entry, elems: Path)
    requires elems != []
    ensures NodesBelow(entry, elems, |entry.dir|) == []
  {
  }

  lemma NothingStep(entry: Entry, elems: Path, i: nat)
    requires elems != [] && i < |entry.dir|
    ensures NodesBelow(entry, elems, i) == [] <==>
            NothingIn(entry.dir[i].1, elems) && NodesBelow(entry, elems, i + 1) == []
  {
    var (name, child) := entry.dir[i];
    var one, rest := Prepend(Level(name, ""), Nodes(child, elems[1..])), NodesBelow(entry, elems, i + 1);
    var more := if elems[0].name == DOTS then Prepend(Level(name, ""), Nodes(child, elems)) else [];
    assert NodesBelow(entry, elems, i) == one + more + rest;
    hide Nodes, NodesBelow;
    assert |one + more + rest| == |one| + |more| + |rest|;
  }

  lemma NamedNodes(entry: Entry, elems: Path)
    requires elems != [] && !IsWild(elems[0])
    ensures var child := Child(entry, elems[0].name);
            Nodes(entry, elems) != [] <==>
            && child.Some? && KeysAllowed(child.value, elems[0].keys)
            && Nodes(child.value, elems[1..]) != []
  {
  }

  method ValidatePathSchema(base: Entry, elems: Path) returns (valid: bool)
    ensures valid <==> Nodes(base, elems) != []
    decreases base, 1
  {
    var entry := base;
    assert elems[0..] == elems;
    hide Nodes, NodesBelow, KeysAllowed;
    for i := 0 to |elems|
      invariant entry == base || entry < base
      invariant Nodes(base, elems) != [] <==> Nodes(entry, elems[i..]) != []
    {
      var e := elems[i];
      ghost var rest := elems[i..];
      assert rest[0] == e && rest[1..] == elems[i + 1..];
      if e.name == STAR || e.name == DOTS {
        WildNodes(entry, rest);
        valid := ValidateChildren(entry, elems[i + 1..]);
        if !valid && e.name == DOTS {
          valid := ValidateChildren(entry, elems[i..]);
        }
        WildVerdict(entry, rest, valid);
        return;
      }
      NamedNodes(entry, rest);
      var child := Child(entry, e.name);
      if child.None? {
        return false;
      }
      if !KeysAllowed(child.value, e.keys) {
        return false;
      }
      assert (e.name, child.value) in entry.dir;
      entry := child.value;
    }
    EmptyPattern(entry);
    assert elems[|elems|..] == [];
    return true;
  }

  /** The loop over the children of a wildcard's node. */
  method ValidateChildren(entry: Entry, elems: Path) returns (valid: bool)
    ensures valid <==> exists j :: 0 <= j < |entry.dir| && Nodes(entry.dir[j].1, elems) != []
    decreases entry, 0
  {
    hide Nodes;
    for c := 0 to |entry.dir|
      invariant forall j :: 0 <= j < c ==> Nodes(entry.dir[j].1, elems) == []
    {
      valid := ValidatePathSchema(entry.dir[c].1, elems);
      if valid {
        return;
      }
    }
    return false;
  }

  lemma WildVerdict(entry: Entry, elems: Path, found: bool)
    requires elems != [] && IsWild(elems[0])
    requires found <==>
             || (exists j :: 0 <= j < |entry.dir| && Nodes(entry.dir[j].1, elems[1..]) != [])
             || (elems[0].name == DOTS && exists j :: 0 <= j < |entry.dir| && Nodes(entry.dir[j].1, elems) != [])
    ensures found <==> Nodes(entry, elems) != []
  {
    WildNodes(entry, elems);
    hide Nodes;
    if Nodes(entry, elems) != [] {
      var j :| 0 <= j < |entry.dir| && !NothingIn(entry.dir[j].1, elems);
    }
    forall j | 0 <= j < |entry.dir| && (Nodes(entry.dir[j].1, elems[1..]) != [] ||
                                        (elems[0].name == DOTS && Nodes(entry.dir[j].1, elems) != []))
      ensures Nodes(entry, elems) != []
    {
      assert !NothingIn(entry.dir[j].1, elems);
    }
  }

  lemma EmptyPattern(entry: Entry)
    ensures Nodes(entry, []) == [[]]
  {
  }

  lemma WildNodes(entry: Entry, elems: Path)
    requires elems != [] && IsWild(elems[0])
    ensures Nodes(entry, elems) == [] <==> forall j :: 0 <= j < |entry.dir| ==> NothingIn(entry.dir[j].1, elems)
  {
    NothingBelow(entry, elems, 0);
  }

  // ---------------------------------------------------------------- sound and complete

  lemma {:induction false} DescendCons(root: Entry, name: string, rest: seq<string>)
    ensures Descend(root, [name] + rest) ==
            if Child(root, name).None? then None else Descend(Child(root, name).value, rest)
  {
    if rest == [] {
      assert [name] + rest == [name] && Init([name]) == [];
    } else {
      assert Init([name] + rest) == [name] + Init(rest);
      DescendCons(root, name, Init(rest));
    }
  }

  lemma TotalUpTo(widths: seq<nat>, i: nat)
    requires 0 < i <= |widths|
    ensures Total(widths[..i]) == widths[0] + Total(widths[1..][..i - 1])
  {
    assert widths[..i][1..] == widths[1..][..i - 1];
  }

  /** An element accepts the same levels seen from one level further down. */
  lemma AcceptsShift(root: Entry, child: Entry, e: Elem, name: string, rest: seq<string>, at: nat, w: nat)
    requires Child(root, name) == Some(child)
    ensures Accepts(root, e, [name] + rest, at + 1, w) <==> Accepts(child, e, rest, at, w)
  {
    var path := [name] + rest;
    if 1 <= w && at + w <= |rest| {
      assert path[at + 1] == rest[at];
      assert path[..at + 2] == [name] + rest[..at + 1];
      DescendCons(root, name, rest[..at + 1]);
    }
  }

  /** The element accepts exactly the node name, a child of root. */
  ghost predicate AcceptsName(root: Entry, e: Elem, name: string) {
    && Child(root, name).Some?
    && (!IsWild(e) ==> name == e.name && KeysAllowed(Child(root, name).value, e.keys))
  }

  lemma AcceptsFirst(root: Entry, e: Elem, path: seq<string>)
    requires path != [] && Descend(root, path).Some?
    ensures Child(root, path[0]).Some?
    ensures Accepts(root, e, path, 0, 1) <==> AcceptsName(root, e, path[0])
  {
    var name, rest := path[0], path[1..];
    assert path == [name] + rest && path[..1] == [name] + [];
    DescendCons(root, name, rest);
    DescendCons(root, name, []);
    assert Descend(Child(root, name).value, []) == Child(root, name);
  }

  /** The first element of the pattern takes one level and leaves the rest to the others. */
  lemma FitsOne(root: Entry, elems: Path, path: seq<string>, widths: seq<nat>)
    requires elems != [] && path != [] && widths != [] && widths[0] == 1 && Child(root, path[0]).Some?
    ensures Fits(root, elems, path, widths) <==>
            && AcceptsName(root, elems[0], path[0])
            && Fits(Child(root, path[0]).value, elems[1..], path[1..], widths[1..])
  {
    hide Descend, Accepts, AcceptsName, Child;
    var child, rest := Child(root, path[0]).value, path[1..];
    assert path == [path[0]] + rest && widths[..0] == [];
    DescendCons(root, path[0], rest);
    if Descend(root, path).Some? && |widths| == |elems| {
      AcceptsFirst(root, elems[0], path);
      RestAccepts(root, child, elems, path, widths, widths[0]);
      if Fits(root, elems, path, widths) {
        forall j | 0 <= j < |elems[1..]|
          ensures Accepts(child, elems[1..][j], rest, Total(widths[1..][..j]), widths[1..][j])
        {
          assert Accepts(root, elems[j + 1], path, Total(widths[..j + 1]), widths[j + 1]);
        }
      }
    }
  }

  /** Past the first w levels an element accepts the same seen from one level further down. */
  lemma RestAccepts(root: Entry, child: Entry, elems: Path, path: seq<string>, widths: seq<nat>, w: nat)
    requires path != [] && |widths| == |elems| && widths != [] && widths[0] == w >= 1 && Child(root, path[0]) == Some(child)
    ensures forall i :: 0 < i < |elems| ==>
              (Accepts(root, elems[i], path, Total(widths[..i]), widths[i])
               <==> Accepts(child, elems[i], path[1..], w - 1 + Total(widths[1..][..i - 1]), widths[i]))
  {
    hide Accepts, Child;
    assert path == [path[0]] + path[1..];
    forall i | 0 < i < |elems|
      ensures Accepts(root, elems[i], path, Total(widths[..i]), widths[i])
              <==> Accepts(child, elems[i], path[1..], w - 1 + Total(widths[1..][..i - 1]), widths[i])
    {
      TotalUpTo(widths, i);
      AcceptsShift(root, child, elems[i], path[0], path[1..], w - 1 + Total(widths[1..][..i - 1]), widths[i]);
    }
  }

  /** Only '...' takes more than one level. */
  lemma AcceptsMore(root: Entry, child: Entry, e: Elem, path: seq<string>, w: nat)
    requires path != [] && w > 1
    ensures Accepts(root, e, path, 0, w) <==> e.name == DOTS && Accepts(child, e, path[1..], 0, w - 1)
  {
  }

  /** A '...' that takes more than one level takes one less from one level further down. */
  lemma FitsMore(root: Entry, elems: Path, path: seq<string>, widths: seq<nat>)
    requires elems != [] && path != [] && widths != [] && widths[0] > 1 && Child(root, path[0]).Some?
    ensures Fits(root, elems, path, widths) <==>
            && elems[0].name == DOTS
            && Fits(Child(root, path[0]).value, elems, path[1..], [widths[0] - 1] + widths[1..])
  {
    hide Descend, Accepts, Child;
    var child, rest, less := Child(root, path[0]).value, path[1..], [widths[0] - 1] + widths[1..];
    assert path == [path[0]] + rest && less[1..] == widths[1..] && widths[..0] == [] == less[..0];
    DescendCons(root, path[0], rest);
    if Descend(root, path).Some? && |widths| == |elems| {
      AcceptsMore(root, child, elems[0], path, widths[0]);
      RestAccepts(root, child, elems, path, widths, widths[0]);
      forall i | 0 < i < |elems|
        ensures Total(less[..i]) == widths[0] - 1 + Total(widths[1..][..i - 1])
      {
        TotalUpTo(less, i);
      }
    }
  }

  /** The first element takes the name of a child, the others match below it. */
  lemma MatchesOne(root: Entry, elems: Path, name: string, rest: seq<string>)
    requires elems != [] && AcceptsName(root, elems[0], name)
    requires Matches(Child(root, name).value, elems[1..], rest)
    ensures Matches(root, elems, [name] + rest)
  {
    var ws :| Fits(Child(root, name).value, elems[1..], rest, ws);
    var path := [name] + rest;
    assert path[1..] == rest && ([1] + ws)[1..] == ws;
    hide Fits, AcceptsName;
    FitsOne(root, elems, path, [1] + ws);
  }

  lemma MatchesMore(root: Entry, elems: Path, name: string, rest: seq<string>)
    requires elems != [] && elems[0].name == DOTS && Child(root, name).Some?
    requires Matches(Child(root, name).value, elems, rest)
    ensures Matches(root, elems, [name] + rest)
  {
    var ws :| Fits(Child(root, name).value, elems, rest, ws);
    var path, widths := [name] + rest, [ws[0] + 1] + ws[1..];
    assert ws[0] >= 1 by { assert Accepts(Child(root, name).value, elems[0], rest, Total(ws[..0]), ws[0]); }
    assert path[1..] == rest && [widths[0] - 1] + widths[1..] == ws;
    hide Fits;
    FitsMore(root, elems, path, widths);
  }

  lemma {:induction false} ChildFromAt(dir: seq<(string, Entry)>, i: nat)
    requires i < |dir| && forall j, k :: 0 <= j < k < |dir| ==> dir[j].0 != dir[k].0
    ensures ChildFrom(dir, dir[i].0) == Some(dir[i].1)
  {
    if i > 0 {
      assert dir[0].0 != dir[i].0;
      ChildFromAt(dir[1..], i - 1);
    }
  }

  lemma ChildBelow(root: Entry, name: string)
    requires UniqueNames(root) && Child(root, name).Some?
    ensures (name, Child(root, name).value) in root.dir
    ensures Child(root, name).value < root && UniqueNames(Child(root, name).value)
  {
    var i :| 0 <= i < |root.dir| && root.dir[i] == (name, Child(root, name).value);
    assert UniqueNames(root.dir[i].1);
  }

  /** Every node that is listed matches the pattern. */
  lemma {:induction false} NodesSound(root: Entry, elems: Path, node: Node)
    requires UniqueNames(root) && node in Nodes(root, elems)
    ensures Matches(root, elems, NamesOf(node))
    decreases root, 1, 0
  {
    if elems == [] {
      assert NamesOf(node) == [];
      assert Fits(root, elems, [], []);
    } else if IsWild(elems[0]) {
      BelowSound(root, elems, 0, node);
    } else {
      var name, entry := elems[0].name, Child(root, elems[0].name).value;
      ChildBelow(root, name);
      var text := KeyText(Fields(entry.key), elems[0].keys);
      assert Nodes(root, elems) == Prepend(Level(name, text), Nodes(entry, elems[1..]));
      hide Nodes, Fields, KeyText;
      var rest := Behead(Level(name, text), Nodes(entry, elems[1..]), node);
      NodesSound(entry, elems[1..], rest);
      hide Matches;
      MatchesOne(root, elems, name, NamesOf(rest));
    }
  }

  lemma {:induction false} BelowSound(root: Entry, elems: Path, i: nat, node: Node)
    requires UniqueNames(root) && elems != [] && IsWild(elems[0])
    requires i <= |root.dir| && node in NodesBelow(root, elems, i)
    ensures Matches(root, elems, NamesOf(node))
    decreases root, 0, |root.dir| - i
  {
    var (name, entry) := root.dir[i];
    var one := Prepend(Level(name, ""), Nodes(entry, elems[1..]));
    var more := if elems[0].name == DOTS then Prepend(Level(name, ""), Nodes(entry, elems)) else [];
    assert NodesBelow(root, elems, i) == one + more + NodesBelow(root, elems, i + 1);
    ChildFromAt(root.dir, i);
    hide Nodes, NodesBelow;
    if node in one {
      var rest := Behead(Level(name, ""), Nodes(entry, elems[1..]), node);
      NodesSound(entry, elems[1..], rest);
      hide Matches;
      MatchesOne(root, elems, name, NamesOf(rest));
    } else if node in more {
      var rest := Behead(Level(name, ""), Nodes(entry, elems), node);
      NodesSound(entry, elems, rest);
      hide Matches;
      MatchesMore(root, elems, name, NamesOf(rest));
    } else {
      BelowSound(root, elems, i + 1, node);
    }
  }

  lemma Behead(level: Level, nodes: seq<Node>, node: Node) returns (rest: Node)
    requires node in Prepend(level, nodes)
    ensures rest in nodes && node == [level] + rest && NamesOf(node) == [level.name] + NamesOf(rest)
  {
    var i :| 0 <= i < |nodes| && Prepend(level, nodes)[i] == node;
    rest := nodes[i];
  }

  /** Every path that matches the pattern is listed. */
  lemma {:induction false} NodesComplete(root: Entry, elems: Path, path: seq<string>, widths: seq<nat>)
    returns (node: Node)
    requires UniqueNames(root) && Fits(root, elems, path, widths)
    ensures node in Nodes(root, elems) && NamesOf(node) == path
    decreases root
  {
    if elems == [] {
      assert path == [];
      return [];
    }
    FitsNotEmpty(root, elems, path, widths);
    var name, rest := path[0], path[1..];
    ChildBelow(root, name);
    var child := Child(root, name).value;
    var tail: Node;
    AcceptsHead(root, elems, path, widths);
    if widths[0] == 1 {
      FitsOne(root, elems, path, widths);
      tail := NodesComplete(child, elems[1..], rest, widths[1..]);
    } else {
      FitsMore(root, elems, path, widths);
      tail := NodesComplete(child, elems, rest, [widths[0] - 1] + widths[1..]);
    }
    hide Fits, Nodes, NodesBelow;
    node := Listed(root, elems, name, tail);
    assert path == [name] + rest;
  }

  /** What is listed for a child is listed, one level longer, for its parent. */
  lemma Listed(root: Entry, elems: Path, name: string, tail: Node) returns (node: Node)
    requires UniqueNames(root) && elems != [] && AcceptsName(root, elems[0], name)
    requires var child := Child(root, name).value;
             tail in Nodes(child, elems[1..]) || (elems[0].name == DOTS && tail in Nodes(child, elems))
    ensures node in Nodes(root, elems) && NamesOf(node) == [name] + NamesOf(tail)
  {
    ChildBelow(root, name);
    var child := Child(root, name).value;
    if IsWild(elems[0]) {
      node := [Level(name, "")] + tail;
      NamesCons(Level(name, ""), tail);
      var i :| 0 <= i < |root.dir| && root.dir[i] == (name, child);
      assert Nodes(root, elems) == NodesBelow(root, elems, 0);
      hide Nodes, NodesBelow, NamesOf;
      ListedBelow(root, elems, i, tail);
      ListedFrom(root, elems, 0, i, node);
    } else {
      var level := Level(name, KeyText(Fields(child.key), elems[0].keys));
      node := [level] + tail;
      NamesCons(level, tail);
      assert Nodes(root, elems) == Prepend(level, Nodes(child, elems[1..]));
      hide Nodes, Fields, KeyText, NamesOf, Prepend;
      InPrepend(level, Nodes(child, elems[1..]), tail);
    }
  }

  lemma NamesCons(level: Level, tail: Node)
    ensures NamesOf([level] + tail) == [level.name] + NamesOf(tail)
  {
  }

  lemma AcceptsHead(root: Entry, elems: Path, path: seq<string>, widths: seq<nat>)
    requires elems != [] && path != [] && widths != [] && Fits(root, elems, path, widths)
    ensures AcceptsName(root, elems[0], path[0])
  {
    assert Accepts(root, elems[0], path, Total(widths[..0]), widths[0]);
    AcceptsFirst(root, elems[0], path);
  }

  lemma FitsNotEmpty(root: Entry, elems: Path, path: seq<string>, widths: seq<nat>)
    requires elems != [] && Fits(root, elems, path, widths)
    ensures path != [] && widths != [] && widths[0] >= 1 && Child(root, path[0]).Some?
  {
    assert Accepts(root, elems[0], path, Total(widths[..0]), widths[0]);
    AcceptsFirst(root, elems[0], path);
  }

  lemma InPrepend(level: Level, nodes: seq<Node>, node: Node)
    requires node in nodes
    ensures [level] + node in Prepend(level, nodes)
  {
    var i :| 0 <= i < |nodes| && nodes[i] == node;
    assert Prepend(level, nodes)[i] == [level] + node;
  }

  lemma ListedBelow(root: Entry, elems: Path, i: nat, tail: Node)
    requires elems != [] && i < |root.dir|
    requires var child := root.dir[i].1;
             tail in Nodes(child, elems[1..]) || (elems[0].name == DOTS && tail in Nodes(child, elems))
    ensures [Level(root.dir[i].0, "")] + tail in NodesBelow(root, elems, i)
  {
    var (name, child) := root.dir[i];
    var level := Level(name, "");
    var one := Prepend(level, Nodes(child, elems[1..]));
    var more := if elems[0].name == DOTS then Prepend(level, Nodes(child, elems)) else [];
    assert NodesBelow(root, elems, i) == one + more + NodesBelow(root, elems, i + 1);
    hide NodesBelow;
    if tail in Nodes(child, elems[1..]) {
      InPrepend(level, Nodes(child, elems[1..]), tail);
    } else {
      InPrepend(level, Nodes(child, elems), tail);
    }
  }

  lemma {:induction false} ListedFrom(root: Entry, elems: Path, j: nat, i: nat, node: Node)
    requires elems != [] && j <= i < |root.dir| && node in NodesBelow(root, elems, i)
    ensures node in NodesBelow(root, elems, j)
    decreases i - j
  {
    hide *;
    if j < i {
      ListedFrom(root, elems, j + 1, i, node);
      ListedNext(root, elems, j, node);
    }
  }

  lemma ListedNext(root: Entry, elems: Path, j: nat, node: Node)
    requires elems != [] && j < |root.dir| && node in NodesBelow(root, elems, j + 1)
    ensures node in NodesBelow(root, elems, j)
  {
    var entry := root.dir[j].1;
    var one := Prepend(Level(root.dir[j].0, ""), Nodes(entry, elems[1..]));
    var more := if elems[0].name == DOTS then Prepend(Level(root.dir[j].0, ""), Nodes(entry, elems)) else [];
    assert NodesBelow(root, elems, j) == one + more + NodesBelow(root, elems, j + 1);
    hide NodesBelow, Nodes, Prepend;
  }

  /** Sound and complete: the names of a listed node are exactly the paths that match. */
  lemma EnumerationExact(root: Entry, elems: Path, path: seq<string>)
    requires UniqueNames(root)
    ensures Matches(root, elems, path) <==> exists node: Node :: node in Nodes(root, elems) && NamesOf(node) == path
  {
    if Matches(root, elems, path) {
      var widths :| Fits(root, elems, path, widths);
      var node := NodesComplete(root, elems, path, widths);
    }
    forall node | node in Nodes(root, elems) && NamesOf(node) == path
      ensures Matches(root, elems, path)
    {
      NodesSound(root, elems, node);
    }
  }

  /** The validator's verdict, which is whether anything is listed, is whether anything matches. */
  lemma ListedIffMatched(root: Entry, elems: Path)
    requires UniqueNames(root)
    ensures Nodes(root, elems) != [] <==> exists path :: Matches(root, elems, path)
  {
    if Nodes(root, elems) != [] {
      NodesSound(root, elems, Nodes(root, elems)[0]);
    }
    forall path | Matches(root, elems, path)
      ensures Nodes(root, elems) != []
    {
      EnumerationExact(root, elems, path);
    }
  }

  // ---------------------------------------------------------------- no duplicates

  /** How many '...' the pattern holds. */
  function DotsIn(elems: Path): nat {
    if elems == [] then 0 else (if elems[0].name == DOTS then 1 else 0) + DotsIn(elems[1..])
  }

  /** A match has at least as many levels as the pattern, and without '...' exactly as many. */
  lemma {:induction false} MatchLength(root: Entry, elems: Path, path: seq<string>, widths: seq<nat>)
    requires Fits(root, elems, path, widths)
    ensures |path| >= |elems| && (DotsIn(elems) == 0 ==> |path| == |elems|)
  {
    forall i | 0 <= i < |elems|
      ensures widths[i] >= 1 && (elems[i].name != DOTS ==> widths[i] == 1)
    {
      assert Accepts(root, elems[i], path, Total(widths[..i]), widths[i]);
    }
    WidthsTotal(elems, widths);
  }

  lemma {:induction false} WidthsTotal(elems: Path, widths: seq<nat>)
    requires |elems| == |widths|
    requires forall i :: 0 <= i < |elems| ==> widths[i] >= 1 && (elems[i].name != DOTS ==> widths[i] == 1)
    ensures Total(widths) >= |elems| && (DotsIn(elems) == 0 ==> Total(widths) == |elems|)
  {
    if elems != [] {
      WidthsTotal(elems[1..], widths[1..]);
    }
  }

  /** No two listed nodes have the same names. */
  ghost predicate NoRepeats(nodes: seq<Node>) {
    forall i, j :: 0 <= i < j < |nodes| ==> NamesOf(nodes[i]) != NamesOf(nodes[j])
  }

  /** Nothing in a has the names of something in b. */
  ghost predicate Apart(a: seq<Node>, b: seq<Node>) {
    forall x: Node, y: Node :: x in a && y in b ==> NamesOf(x) != NamesOf(y)
  }

  lemma NoRepeatsConcat(a: seq<Node>, b: seq<Node>)
    requires NoRepeats(a) && NoRepeats(b) && Apart(a, b)
    ensures NoRepeats(a + b)
  {
    forall i, j | 0 <= i < j < |a + b|
      ensures NamesOf((a + b)[i]) != NamesOf((a + b)[j])
    {
      if i < |a| <= j {
        assert (a + b)[i] in a && (a + b)[j] in b;
      }
    }
  }

  lemma NoRepeatsPrepend(level: Level, nodes: seq<Node>)
    requires NoRepeats(nodes)
    ensures NoRepeats(Prepend(level, nodes))
  {
    forall i, j | 0 <= i < j < |nodes|
      ensures NamesOf(Prepend(level, nodes)[i]) != NamesOf(Prepend(level, nodes)[j])
    {
      assert NamesOf([level] + nodes[i])[1..] == NamesOf(nodes[i]);
      assert NamesOf([level] + nodes[j])[1..] == NamesOf(nodes[j]);
    }
  }

  /** What '...' finds right below a child is shorter than what it finds deeper, when no other '...' follows. */
  lemma LengthsApart(child: Entry, elems: Path, level: Level)
    requires UniqueNames(child) && elems != [] && DotsIn(elems[1..]) == 0
    ensures Apart(Prepend(level, Nodes(child, elems[1..])), Prepend(level, Nodes(child, elems)))
  {
    forall x, y | x in Prepend(level, Nodes(child, elems[1..])) && y in Prepend(level, Nodes(child, elems))
      ensures NamesOf(x) != NamesOf(y)
    {
      var x' := Behead(level, Nodes(child, elems[1..]), x);
      var y' := Behead(level, Nodes(child, elems), y);
      hide Nodes;
      NodesSound(child, elems[1..], x');
      NodesSound(child, elems, y');
      var wx :| Fits(child, elems[1..], NamesOf(x'), wx);
      var wy :| Fits(child, elems, NamesOf(y'), wy);
      MatchLength(child, elems[1..], NamesOf(x'), wx);
      MatchLength(child, elems, NamesOf(y'), wy);
    }
  }

  lemma {:induction false} NodesNoRepeats(root: Entry, elems: Path)
    requires UniqueNames(root) && DotsIn(elems) <= 1
    ensures NoRepeats(Nodes(root, elems))
    decreases root, 1, 0
  {
    if elems != [] {
      if IsWild(elems[0]) {
        BelowNoRepeats(root, elems, 0);
      } else {
        var entry := Child(root, elems[0].name);
        if entry.Some? && KeysAllowed(entry.value, elems[0].keys) {
          var level := Level(elems[0].name, KeyText(Fields(entry.value.key), elems[0].keys));
          assert Nodes(root, elems) == Prepend(level, Nodes(entry.value, elems[1..]));
          hide Nodes, Fields, KeyText, KeysAllowed;
          ChildBelow(root, elems[0].name);
          NodesNoRepeats(entry.value, elems[1..]);
          NoRepeatsPrepend(level, Nodes(entry.value, elems[1..]));
        } else {
          assert Nodes(root, elems) == [];
        }
      }
    }
  }

  /** Every listed node starts with the name of a child from the i-th on. */
  ghost predicate StartFrom(nodes: seq<Node>, root: Entry, i: nat) {
    forall node: Node :: node in nodes ==>
      node != [] && exists j :: i <= j < |root.dir| && node[0].name == root.dir[j].0
  }

  lemma {:induction false} BelowNoRepeats(root: Entry, elems: Path, i: nat)
    requires UniqueNames(root) && elems != [] && IsWild(elems[0]) && DotsIn(elems) <= 1 && i <= |root.dir|
    ensures NoRepeats(NodesBelow(root, elems, i)) && StartFrom(NodesBelow(root, elems, i), root, i)
    decreases root, 0, |root.dir| - i
  {
    hide *;
    if i == |root.dir| {
      NoRepeatsAtEnd(root, elems);
      return;
    }
    var level, child := Level(root.dir[i].0, ""), root.dir[i].1;
    var one := Prepend(level, Nodes(child, elems[1..]));
    var more := if elems[0].name == DOTS then Prepend(level, Nodes(child, elems)) else [];
    var rest := NodesBelow(root, elems, i + 1);
    BelowUnfold(root, elems, i);
    DotsAfter(elems);
    UniqueBelow(root, i);
    NodesNoRepeats(child, elems[1..]);
    NoRepeatsPrepend(level, Nodes(child, elems[1..]));
    if elems[0].name == DOTS {
      NodesNoRepeats(child, elems);
      NoRepeatsPrepend(level, Nodes(child, elems));
      LengthsApart(child, elems, level);
    } else {
      NoRepeatsNone(one);
    }
    NoRepeatsConcat(one, more);
    BelowNoRepeats(root, elems, i + 1);
    HereStart(level, Nodes(child, elems[1..]), if elems[0].name == DOTS then Nodes(child, elems) else []);
    PrependNone(level);
    HeadsApart(root, i, one + more, rest);
    NoRepeatsConcat(one + more, rest);
  }

  lemma NoRepeatsAtEnd(root: Entry, elems: Path)
    requires elems != []
    ensures NoRepeats(NodesBelow(root, elems, |root.dir|)) && StartFrom(NodesBelow(root, elems, |root.dir|), root, |root.dir|)
  {
  }

  lemma PrependNone(level: Level)
    ensures Prepend(level, []) == []
  {
  }

  lemma BelowUnfold(root: Entry, elems: Path, i: nat)
    requires elems != [] && i < |root.dir|
    ensures var level, child := Level(root.dir[i].0, ""), root.dir[i].1;
            NodesBelow(root, elems, i)
            == Prepend(level, Nodes(child, elems[1..]))
               + (if elems[0].name == DOTS then Prepend(level, Nodes(child, elems)) else [])
               + NodesBelow(root, elems, i + 1)
  {
  }

  lemma DotsAfter(elems: Path)
    requires elems != [] && DotsIn(elems) <= 1
    ensures DotsIn(elems[1..]) <= 1 && (elems[0].name == DOTS ==> DotsIn(elems[1..]) == 0)
  {
  }

  lemma UniqueBelow(root: Entry, i: nat)
    requires UniqueNames(root) && i < |root.dir|
    ensures UniqueNames(root.dir[i].1)
  {
  }

  lemma NoRepeatsNone(nodes: seq<Node>)
    ensures NoRepeats([]) && Apart(nodes, [])
  {
  }

  ghost predicate StartWith(nodes: seq<Node>, name: string) {
    forall node: Node :: node in nodes ==> node != [] && node[0].name == name
  }

  lemma HereStart(level: Level, a: seq<Node>, b: seq<Node>)
    ensures StartWith(Prepend(level, a) + Prepend(level, b), level.name)
  {
  }

  /** What is found in one child and what is found in later ones start with different names. */
  lemma HeadsApart(root: Entry, i: nat, here: seq<Node>, later: seq<Node>)
    requires UniqueNames(root) && i < |root.dir|
    requires StartWith(here, root.dir[i].0) && StartFrom(later, root, i + 1)
    ensures Apart(here, later) && StartFrom(here + later, root, i)
  {
    forall node: Node | node in here + later
      ensures node != [] && exists j :: i <= j < |root.dir| && node[0].name == root.dir[j].0
    {
      if node in here {
        assert node[0].name == root.dir[i].0;
      } else {
        var j :| i + 1 <= j < |root.dir| && node[0].name == root.dir[j].0;
      }
    }
    forall x: Node, y: Node | x in here && y in later
      ensures NamesOf(x) != NamesOf(y)
    {
      assert NamesOf(x)[0] == root.dir[i].0;
      var j :| i < j < |root.dir| && y[0].name == root.dir[j].0;
      assert NamesOf(y)[0] == root.dir[j].0;
    }
  }

  // ---------------------------------------------------------------- the same, on the texts

  /** All names in the schema are identifiers. */
  ghost predicate NamedByIdentifiers(entry: Entry) {
    forall i :: 0 <= i < |entry.dir| ==> IsIdentifier(entry.dir[i].0) && NamedByIdentifiers(entry.dir[i].1)
  }

  lemma {:induction false} PathNames(root: Entry, path: seq<string>)
    requires NamedByIdentifiers(root) && Descend(root, path).Some?
    ensures forall n :: n in path ==> IsIdentifier(n)
    decreases path
  {
    if path != [] {
      var name, rest := path[0], path[1..];
      assert path == [name] + rest;
      DescendCons(root, name, rest);
      var child := Child(root, name).value;
      assert (name, child) in root.dir;
      PathNames(child, rest);
    }
  }

  /** The text of a schema path tells the path. */
  lemma SlashedInjective(a: seq<string>, b: seq<string>)
    requires forall n :: n in a ==> IsIdentifier(n)
    requires forall n :: n in b ==> IsIdentifier(n)
    requires Slashed(a) == Slashed(b)
    ensures a == b
  {
    forall n | n in a || n in b
      ensures IsPiece(n)
    {
      NamePiece(n);
    }
    SplitSlashed(a);
    SplitSlashed(b);
  }

  /** findSchemaPath lists a schema path if and only if it matches, over every schema tree. */
  lemma SchemaPathsExact(root: Entry, elems: Path, path: seq<string>)
    requires UniqueNames(root) && NamedByIdentifiers(root)
    requires forall n :: n in path ==> IsIdentifier(n)
    ensures Slashed(path) in SchemaTexts("", Nodes(root, elems)) <==> Matches(root, elems, path)
  {
    var nodes := Nodes(root, elems);
    EnumerationExact(root, elems, path);
    if Matches(root, elems, path) {
      var node :| node in nodes && NamesOf(node) == path;
      var i :| 0 <= i < |nodes| && nodes[i] == node;
      assert SchemaTexts("", nodes)[i] == "" + Slashed(path) == Slashed(path);
    }
    if Slashed(path) in SchemaTexts("", nodes) {
      var i :| 0 <= i < |nodes| && SchemaTexts("", nodes)[i] == Slashed(path);
      assert "" + Slashed(NamesOf(nodes[i])) == Slashed(NamesOf(nodes[i]));
      ListedNames(root, elems, nodes[i]);
      SlashedInjective(NamesOf(nodes[i]), path);
    }
  }

  lemma ListedNames(root: Entry, elems: Path, node: Node)
    requires UniqueNames(root) && NamedByIdentifiers(root) && node in Nodes(root, elems)
    ensures forall n :: n in NamesOf(node) ==> IsIdentifier(n)
  {
    NodesSound(root, elems, node);
    var widths :| Fits(root, elems, NamesOf(node), widths);
    PathNames(root, NamesOf(node));
  }

  /** With at most one '...' findSchemaPath lists no path twice. */
  lemma SchemaPathsOnce(root: Entry, elems: Path)
    requires UniqueNames(root) && NamedByIdentifiers(root) && DotsIn(elems) <= 1
    ensures var texts := SchemaTexts("", Nodes(root, elems));
            forall i, j :: 0 <= i < j < |texts| ==> texts[i] != texts[j]
  {
    var nodes := Nodes(root, elems);
    NodesNoRepeats(root, elems);
    hide Nodes;
    forall i, j | 0 <= i < j < |nodes|
      ensures SchemaText("", nodes[i]) != SchemaText("", nodes[j])
    {
      assert nodes[i] in nodes && nodes[j] in nodes;
      assert "" + Slashed(NamesOf(nodes[i])) == Slashed(NamesOf(nodes[i]));
      assert "" + Slashed(NamesOf(nodes[j])) == Slashed(NamesOf(nodes[j]));
      ListedNames(root, elems, nodes[i]);
      ListedNames(root, elems, nodes[j]);
      if Slashed(NamesOf(nodes[i])) == Slashed(NamesOf(nodes[j])) {
        SlashedInjective(NamesOf(nodes[i]), NamesOf(nodes[j]));
      }
    }
  }

  /** With two '...' a node can be listed more than once: /a/b/c is one level and then two,
      and also two levels and then one. */
  lemma TwoDotsRepeat()
    ensures var c := Entry("", []);
            var b := Entry("", [("c", c)]);
            var a := Entry("", [("b", b)]);
            var root := Entry("", [("a", a)]);
            var dots := Elem(DOTS, map[]);
            UniqueNames(root) && !NoRepeats(Nodes(root, [dots, dots]))
  {
    var c := Entry("", []);
    var b := Entry("", [("c", c)]);
    var a := Entry("", [("b", b)]);
    var root := Entry("", [("a", a)]);
    var dots := Elem(DOTS, map[]);
    var one, two := [dots], [dots, dots];
    assert two[1..] == one && one[1..] == [];
    var lc, lb, la := Level("c", ""), Level("b", ""), Level("a", "");
    assert UniqueNames(c) && UniqueNames(b) && UniqueNames(a) && UniqueNames(root);
    OnlyChild("c", c, one);
    OnlyChild("b", b, one);
    OnlyChild("b", b, two);
    OnlyChild("a", a, two);
    assert Nodes(c, []) == [[]];
    assert [lc] in Nodes(b, one) by {
      InPrepend(lc, Nodes(c, []), []);
      assert [lc] + [] == [lc];
    }
    InPrepend(lb, Nodes(b, one), [lc]);
    var shallow, deep := Nodes(a, one), Nodes(a, two);
    assert [lb] + [lc] in shallow && [lb] + [lc] in deep;
    InPrepend(la, shallow, [lb] + [lc]);
    InPrepend(la, deep, [lb] + [lc]);
    hide Nodes, NodesBelow, UniqueNames;
    ListedTwice(Prepend(la, shallow), Prepend(la, deep), [la] + ([lb] + [lc]));
  }

  lemma ListedTwice(a: seq<Node>, b: seq<Node>, node: Node)
    requires node in a && node in b
    ensures !NoRepeats(a + b)
  {
    var i :| 0 <= i < |a| && a[i] == node;
    var j :| 0 <= j < |b| && b[j] == node;
    assert (a + b)[i] == node == (a + b)[|a| + j];
  }

  lemma OnlyChild(name: string, child: Entry, elems: Path)
    requires elems != [] && elems[0].name == DOTS
    ensures Nodes(Entry("", [(name, child)]), elems) ==
            Prepend(Level(name, ""), Nodes(child, elems[1..])) + Prepend(Level(name, ""), Nodes(child, elems))
  {
    var parent := Entry("", [(name, child)]);
    assert Nodes(parent, elems) == NodesBelow(parent, elems, 0);
    assert NodesBelow(parent, elems, 1) == [];
  }

  // ---------------------------------------------------------------- removing the keys

  /** The key text is a row of printed pairs that can be read. */
  ghost predicate IsReadableLevel(level: Level) {
    && IsIdentifier(level.name)
    && exists order: seq<string>, raws: map<string, string> :: ReadablePairs(level.keyText, order, raws)
  }

  ghost predicate ReadablePairs(text: string, order: seq<string>, raws: map<string, string>) {
    && (forall k :: k in order ==> k in raws && IsIdentifier(k) && IsRawValue(raws[k]))
    && text == PrintPairs(order, raws)
  }

  lemma {:induction false} KeyTextReadable(names: seq<string>, keys: map<string, string>) returns (order: seq<string>)
    requires forall k :: k in keys ==> IsIdentifier(k) && IsRawValue(keys[k])
    ensures ReadablePairs(KeyText(names, keys), order, keys)
  {
    if names == [] || names[0] !in keys || keys[names[0]] == STAR {
      order := [];
    } else {
      var rest := KeyTextReadable(names[1..], keys);
      order := [names[0]] + rest;
      assert order[1..] == rest;
    }
  }

  /** The levels of a listed node can be read when the keys of the pattern can. */
  lemma {:induction false} ListedReadable(root: Entry, elems: Path, node: Node)
    requires UniqueNames(root) && NamedByIdentifiers(root)
    requires forall e :: e in elems && !IsWild(e) ==> IsReadable(e)
    requires node in Nodes(root, elems)
    ensures forall level :: level in node ==> IsReadableLevel(level)
    decreases root, 1, 0
  {
    if elems == [] {
    } else if IsWild(elems[0]) {
      ListedReadableBelow(root, elems, 0, node);
    } else {
      var e, entry := elems[0], Child(root, elems[0].name).value;
      ChildBelow(root, e.name);
      assert e in elems && NamedByIdentifiers(entry);
      var level := Level(e.name, KeyText(Fields(entry.key), e.keys));
      assert Nodes(root, elems) == Prepend(level, Nodes(entry, elems[1..]));
      var order := KeyTextReadable(Fields(entry.key), e.keys);
      assert IsReadableLevel(level);
      hide Nodes, Fields, KeyText, IsReadableLevel;
      var rest := Behead(level, Nodes(entry, elems[1..]), node);
      ListedReadable(entry, elems[1..], rest);
    }
  }

  lemma {:induction false} ListedReadableBelow(root: Entry, elems: Path, i: nat, node: Node)
    requires UniqueNames(root) && NamedByIdentifiers(root) && elems != [] && i <= |root.dir|
    requires forall e :: e in elems && !IsWild(e) ==> IsReadable(e)
    requires node in NodesBelow(root, elems, i)
    ensures forall level :: level in node ==> IsReadableLevel(level)
    decreases root, 0, |root.dir| - i
  {
    var (name, child) := root.dir[i];
    var level := Level(name, "");
    var one := Prepend(level, Nodes(child, elems[1..]));
    var more := if elems[0].name == DOTS then Prepend(level, Nodes(child, elems)) else [];
    assert NodesBelow(root, elems, i) == one + more + NodesBelow(root, elems, i + 1);
    assert ReadablePairs("", [], map[]);
    assert IsReadableLevel(level) && NamedByIdentifiers(child) && UniqueNames(child);
    hide Nodes, NodesBelow, IsReadableLevel, IsReadable;
    if node in one {
      var rest := Behead(level, Nodes(child, elems[1..]), node);
      ListedReadable(child, elems[1..], rest);
    } else if node in more {
      var rest := Behead(level, Nodes(child, elems), node);
      ListedReadable(child, elems, rest);
    } else {
      ListedReadableBelow(root, elems, i + 1, node);
    }
  }

  lemma LevelReads(level: Level)
    requires IsReadableLevel(level)
    ensures IsPiece(level.name + level.keyText)
    ensures var parts := ParseElement(level.name + level.keyText);
            parts.Ok? && NamesIn(parts.value) == [level.name]
  {
    var order: seq<string>, raws: map<string, string> :| ReadablePairs(level.keyText, order, raws);
    PrintedPiece(level.name, order, raws);
    if order == [] {
      hide IsPiece, IsReadableLevel;
      assert level.name + level.keyText == level.name;
      NameParts(level.name);
      NamesInOne(level.name);
    } else {
      hide IsPiece, IsReadableLevel;
      ReadKeyText(level.keyText, order, raws);
      hide ReadablePairs;
      KeyedParts(level.name, level.keyText);
    }
  }

  lemma NamesInOne(name: string)
    ensures NamesIn([Name(name)]) == [name]
    ensures forall pairs :: NamesIn([Name(name), Keys(pairs)]) == [name]
  {
    assert Init([Name(name)]) == [];
    assert forall pairs :: Init([Name(name), Keys(pairs)]) == [Name(name)];
  }

  lemma ReadKeyText(text: string, order: seq<string>, raws: map<string, string>)
    requires ReadablePairs(text, order, raws) && order != []
    ensures text != "" && text[0] == '[' && Pairs(text).Ok?
  {
    assert text[0..] == text;
    ReadPairs(text, 0, order, raws);
  }

  lemma KeyedParts(name: string, text: string)
    requires IsIdentifier(name) && text != "" && text[0] == '[' && Pairs(text).Ok?
    ensures var parts := ParseElement(name + text);
            parts.Ok? && NamesIn(parts.value) == [name]
  {
    hide Pairs, IsIdentifier, ParseElement;
    PairsParts(name, text);
    NamesInOne(name);
  }

  lemma {:induction false} LevelsRead(node: Node)
    requires forall level :: level in node ==> IsReadableLevel(level)
    ensures ParseElements(KeyedNamesOf(node)).Ok?
    ensures NamesIn(ParseElements(KeyedNamesOf(node)).value) == NamesOf(node)
    ensures forall w :: w in KeyedNamesOf(node) ==> IsPiece(w)
  {
    if node == [] {
      assert KeyedNamesOf(node) == [] && NamesOf(node) == [];
    } else {
      var front, level := Init(node), Last(node);
      LevelReads(level);
      LevelsRead(front);
      assert node == front + [level];
      hide ParseElements, ParseElement, NamesIn, NamesOf, IsReadableLevel;
      LevelsSnoc(front, level);
    }
  }

  lemma LevelsSnoc(front: Node, level: Level)
    requires ParseElements(KeyedNamesOf(front)).Ok? && ParseElement(level.name + level.keyText).Ok?
    requires NamesIn(ParseElements(KeyedNamesOf(front)).value) == NamesOf(front)
    requires NamesIn(ParseElement(level.name + level.keyText).value) == [level.name]
    ensures ParseElements(KeyedNamesOf(front + [level])).Ok?
    ensures NamesIn(ParseElements(KeyedNamesOf(front + [level])).value) == NamesOf(front + [level])
    ensures KeyedNamesOf(front + [level]) == KeyedNamesOf(front) + [level.name + level.keyText]
  {
    var text := level.name + level.keyText;
    hide ParseElement, ParseElements, NamesIn;
    assert KeyedNamesOf(front + [level]) == KeyedNamesOf(front) + [text];
    assert NamesOf(front + [level]) == NamesOf(front) + [level.name];
    ParseSnoc(KeyedNamesOf(front), text);
    NamesInConcat(ParseElements(KeyedNamesOf(front)).value, ParseElement(text).value);
  }

  lemma {:induction false} NamesInConcat(a: seq<Part>, b: seq<Part>)
    ensures NamesIn(a + b) == NamesIn(a) + NamesIn(b)
    decreases |b|
  {
    hide *;
    if b == [] {
      NamesInNone();
      assert a + b == a;
      assert NamesIn(a) + [] == NamesIn(a);
    } else {
      InitLast(b);
      NamesInConcat(a, Init(b));
      NamesInSnoc(Init(b), Last(b));
      NamesInSnoc(a + Init(b), Last(b));
      ConcatAssoc(a, Init(b), [Last(b)]);
      ConcatAssoc(NamesIn(a), NamesIn(Init(b)), if Last(b).Name? then [Last(b).name] else []);
    }
  }

  lemma NamesInNone()
    ensures NamesIn([]) == []
  {
  }

  lemma NamesInSnoc(parts: seq<Part>, part: Part)
    ensures NamesIn(parts + [part]) == NamesIn(parts) + if part.Name? then [part.name] else []
  {
    assert Init(parts + [part]) == parts;
  }

  /** Position by position, what ToSchemaPath makes of a path listed by findPaths is the path
      that findSchemaPath lists. */
  lemma KeysRemoved(root: Entry, elems: Path, i: nat)
    requires UniqueNames(root) && NamedByIdentifiers(root)
    requires forall e :: e in elems && !IsWild(e) ==> IsReadable(e)
    requires i < |Nodes(root, elems)|
    ensures SchemaPathOf(KeyedTexts("", Nodes(root, elems))[i]) == Ok(SchemaTexts("", Nodes(root, elems))[i])
  {
    var node := Nodes(root, elems)[i];
    ListedReadable(root, elems, node);
    hide Nodes;
    LevelsRead(node);
    assert "" + Slashed(KeyedNamesOf(node)) == Slashed(KeyedNamesOf(node));
    assert "" + Slashed(NamesOf(node)) == Slashed(NamesOf(node));
    SplitSlashed(KeyedNamesOf(node));
  }

  // ---------------------------------------------------------------- the wildcards and the keys of a pattern

  /** '*' lists exactly the nodes one level down, and '...' exactly those on any level below. */
  lemma WildcardsExact(root: Entry, path: seq<string>)
    requires UniqueNames(root)
    ensures (exists node: Node :: node in Nodes(root, [Elem("*", map[])]) && NamesOf(node) == path)
            <==> |path| == 1 && Descend(root, path).Some?
    ensures (exists node: Node :: node in Nodes(root, [Elem("...", map[])]) && NamesOf(node) == path)
            <==> |path| >= 1 && Descend(root, path).Some?
  {
    hide Nodes, NamesOf, Descend;
    var one, all := [Elem("*", map[])], [Elem("...", map[])];
    EnumerationExact(root, one, path);
    EnumerationExact(root, all, path);
    OneWidth(root, one, path);
    OneWidth(root, all, path);
  }

  lemma OneWidth(root: Entry, elems: Path, path: seq<string>)
    requires |elems| == 1 && (elems[0].name == "*" || elems[0].name == "...")
    ensures Matches(root, elems, path) <==> Descend(root, path).Some? && |path| >= 1 && (elems[0].name == "*" ==> |path| == 1)
  {
    hide Descend;
    if Matches(root, elems, path) {
      var widths :| Fits(root, elems, path, widths);
      OneTotal(widths);
      assert Accepts(root, elems[0], path, Total(widths[..0]), widths[0]);
    }
    if Descend(root, path).Some? && |path| >= 1 && (elems[0].name == "*" ==> |path| == 1) {
      var widths: seq<nat> := [|path|];
      OneTotal(widths);
      assert Accepts(root, elems[0], path, 0, |path|);
      assert Fits(root, elems, path, widths);
    }
  }

  lemma OneTotal(widths: seq<nat>)
    requires |widths| == 1
    ensures Total(widths) == widths[0] && Total(widths[..0]) == 0
  {
    assert widths[1..] == [];
  }

  /** findPaths prints the keys of an element in the order of the schema, as many as come before the first that is missing or
      '*'. */
  lemma {:induction false} KeyTextExact(names: seq<string>, keys: map<string, string>) returns (n: nat)
    ensures n <= |names|
    ensures forall i :: 0 <= i < n ==> names[i] in keys && keys[names[i]] != "*"
    ensures n < |names| ==> names[n] !in keys || keys[names[n]] == "*"
    ensures (forall k :: k in names[..n] ==> k in keys) && KeyText(names, keys) == PrintPairs(names[..n], keys)
  {
    hide PairText;
    if names == [] || names[0] !in keys || keys[names[0]] == "*" {
      n := 0;
      assert names[..0] == [];
    } else {
      n := KeyTextExact(names[1..], keys);
      n := n + 1;
      assert names[..n][1..] == names[1..][..n - 1];
      assert forall i :: 0 < i < n ==> names[i] == names[1..][i - 1];
      assert forall k :: k in names[..n] ==> k == names[0] || k in names[1..][..n - 1];
    }
  }

  /** An element with a key lists nothing if the key occurs nowhere in the key text of its node; else its keys make no
      difference to what is listed. */
  lemma KeysExact(parent: Entry, e: Elem, rest: Path)
    requires e.name != "*" && e.name != "..." && Child(parent, e.name).Some?
    ensures var text := Child(parent, e.name).value.key;
            SchemaTexts("", Nodes(parent, [e] + rest))
            == if forall k :: k in e.keys ==> exists i :: 0 <= i <= |text| && k <= text[i..]
               then SchemaTexts("", Nodes(parent, [e.(keys := map[])] + rest)) else []
  {
    var entry, text := Child(parent, e.name).value, Child(parent, e.name).value.key;
    var with, bare := [e] + rest, [e.(keys := map[])] + rest;
    assert with[1..] == rest && bare[1..] == rest;
    forall k
      ensures Contains(text, k) <==> exists i :: 0 <= i <= |text| && k <= text[i..]
    {
    }
    SchemaTextsPrepend("", Level(e.name, KeyText(Fields(text), e.keys)), Nodes(entry, rest));
    SchemaTextsPrepend("", Level(e.name, KeyText(Fields(text), map[])), Nodes(entry, rest));
  }
}
