/** How often findSchemaPath lists a path (gnmi/model/model.go): once for every way in which the elements of the
    pattern can share out its levels. */
module Repeats {
  import opened Text
  import opened PathText
  import opened Schema
  import opened Wildcards

  /** The first element takes one level. */
  function First(ws: seq<seq<nat>>): (r: seq<seq<nat>>)
    ensures |r| == |ws| && forall i :: 0 <= i < |r| ==> r[i] == [1] + ws[i]
  {
    seq(|ws|, i requires 0 <= i < |ws| => [1] + ws[i])
  }

  /** The first element takes one level more. */
  function Wider(ws: seq<seq<nat>>): (r: seq<seq<nat>>)
    requires forall i :: 0 <= i < |ws| ==> ws[i] != []
    ensures |r| == |ws| && forall i :: 0 <= i < |r| ==> r[i] == [ws[i][0] + 1] + ws[i][1..]
  {
    seq(|ws|, i requires 0 <= i < |ws| => [ws[i][0] + 1] + ws[i][1..])
  }

  /** All ways in which the pattern fits the path. */
  ghost function AllWidths(root: Entry, elems: Path, path: seq<string>): (r: seq<seq<nat>>)
    ensures forall i :: 0 <= i < |r| ==> |r[i]| == |elems| && (elems != [] ==> r[i][0] >= 1)
    decreases |path|
  {
    if elems == [] then if path == [] then [[]] else []
    else if path == [] || !AcceptsName(root, elems[0], path[0]) then []
    else
      var child, rest := Child(root, path[0]).value, path[1..];
      First(AllWidths(child, elems[1..], rest))
      + if elems[0].name == DOTS then Wider(AllWidths(child, elems, rest)) else []
  }

  /** They are exactly the widths that fit. */
  lemma {:induction false} WidthsExact(root: Entry, elems: Path, path: seq<string>, widths: seq<nat>)
    ensures widths in AllWidths(root, elems, path) <==> Fits(root, elems, path, widths)
    decreases |path|
  {
    if elems == [] {
      FitsNone(root, path, widths);
    } else if path == [] || widths == [] || widths[0] == 0 {
      NoFit(root, elems, path, widths);
    } else if !AcceptsName(root, elems[0], path[0]) {
      if Fits(root, elems, path, widths) {
        AcceptsHead(root, elems, path, widths);
      }
    } else {
      var child, rest, more := Child(root, path[0]).value, path[1..], widths[1..];
      WidthsSplit(root, elems, path, widths);
      if widths[0] == 1 {
        WidthsExact(child, elems[1..], rest, more);
        FitsOne(root, elems, path, widths);
      } else {
        WidthsExact(child, elems, rest, [widths[0] - 1] + more);
        FitsMore(root, elems, path, widths);
      }
    }
  }

  lemma FitsNone(root: Entry, path: seq<string>, widths: seq<nat>)
    ensures Fits(root, [], path, widths) <==> path == [] && widths == []
  {
  }

  lemma NoFit(root: Entry, elems: Path, path: seq<string>, widths: seq<nat>)
    requires elems != [] && (path == [] || widths == [] || widths[0] == 0)
    ensures !Fits(root, elems, path, widths) && widths !in AllWidths(root, elems, path)
  {
    if Fits(root, elems, path, widths) {
      FitsNotEmpty(root, elems, path, widths);
    }
    if widths in AllWidths(root, elems, path) {
      WidthsSplit(root, elems, path, widths);
    }
  }

  lemma InFirst(ws: seq<seq<nat>>, w: seq<nat>)
    ensures w in First(ws) <==> w != [] && w[0] == 1 && w[1..] in ws
  {
    if w in First(ws) {
      var i :| 0 <= i < |ws| && First(ws)[i] == w;
      assert w[1..] == ws[i];
    }
    if w != [] && w[0] == 1 && w[1..] in ws {
      var i :| 0 <= i < |ws| && ws[i] == w[1..];
      assert First(ws)[i] == w;
    }
  }

  lemma InWider(ws: seq<seq<nat>>, w: seq<nat>)
    requires forall i :: 0 <= i < |ws| ==> ws[i] != [] && ws[i][0] >= 1
    ensures w in Wider(ws) <==> w != [] && w[0] > 1 && [w[0] - 1] + w[1..] in ws
  {
    if w in Wider(ws) {
      var i :| 0 <= i < |ws| && Wider(ws)[i] == w;
      assert [w[0] - 1] + w[1..] == ws[i];
    }
    if w != [] && w[0] > 1 && [w[0] - 1] + w[1..] in ws {
      var i :| 0 <= i < |ws| && ws[i] == [w[0] - 1] + w[1..];
      assert Wider(ws)[i] == w;
    }
  }

  /** The widths whose first element takes one level, and those where it takes more. */
  lemma WidthsSplit(root: Entry, elems: Path, path: seq<string>, w: seq<nat>)
    requires elems != [] && path != [] && AcceptsName(root, elems[0], path[0])
    ensures var child, rest := Child(root, path[0]).value, path[1..];
            w in AllWidths(root, elems, path)
            <==> w != []
                 && ((w[0] == 1 && w[1..] in AllWidths(child, elems[1..], rest))
                     || (w[0] > 1 && elems[0].name == DOTS && [w[0] - 1] + w[1..] in AllWidths(child, elems, rest)))
  {
    var child, rest := Child(root, path[0]).value, path[1..];
    InFirst(AllWidths(child, elems[1..], rest), w);
    if elems[0].name == DOTS {
      InWider(AllWidths(child, elems, rest), w);
    }
  }

  predicate Distinct(ws: seq<seq<nat>>) {
    forall i, j :: 0 <= i < j < |ws| ==> ws[i] != ws[j]
  }

  lemma DistinctFirst(ws: seq<seq<nat>>)
    requires Distinct(ws)
    ensures Distinct(First(ws))
  {
    forall i, j | 0 <= i < j < |ws|
      ensures First(ws)[i] != First(ws)[j]
    {
      assert ([1] + ws[i])[1..] == ws[i] && ([1] + ws[j])[1..] == ws[j];
    }
  }

  lemma DistinctWider(ws: seq<seq<nat>>)
    requires Distinct(ws) && forall i :: 0 <= i < |ws| ==> ws[i] != []
    ensures Distinct(Wider(ws))
  {
    forall i, j | 0 <= i < j < |ws|
      ensures Wider(ws)[i] != Wider(ws)[j]
    {
      DifferWider(ws[i], ws[j]);
    }
  }

  lemma DifferWider(v: seq<nat>, w: seq<nat>)
    requires v != [] && w != [] && v != w
    ensures [v[0] + 1] + v[1..] != [w[0] + 1] + w[1..]
  {
    var x, y := [v[0] + 1] + v[1..], [w[0] + 1] + w[1..];
    assert x[0] == v[0] + 1 && y[0] == w[0] + 1 && x[1..] == v[1..] && y[1..] == w[1..];
    assert v == [v[0]] + v[1..] && w == [w[0]] + w[1..];
  }

  lemma DistinctBoth(ones: seq<seq<nat>>, more: seq<seq<nat>>)
    requires Distinct(ones) && Distinct(more)
    requires forall i :: 0 <= i < |ones| ==> ones[i] != [] && ones[i][0] == 1
    requires forall i :: 0 <= i < |more| ==> more[i] != [] && more[i][0] > 1
    ensures Distinct(ones + more)
  {
    forall i, j | 0 <= i < j < |ones + more|
      ensures (ones + more)[i] != (ones + more)[j]
    {
      if i < |ones| <= j {
        assert ones[i][0] != more[j - |ones|][0];
      }
    }
  }

  /** No widths are there twice. */
  lemma {:induction false} WidthsDistinct(root: Entry, elems: Path, path: seq<string>)
    ensures Distinct(AllWidths(root, elems, path))
    decreases |path|
  {
    if elems != [] && path != [] && AcceptsName(root, elems[0], path[0]) {
      var child, rest := Child(root, path[0]).value, path[1..];
      var one, more := AllWidths(child, elems[1..], rest), AllWidths(child, elems, rest);
      WidthsDistinct(child, elems[1..], rest);
      WidthsDistinct(child, elems, rest);
      DistinctFirst(one);
      DistinctWider(more);
      DistinctBoth(First(one), Wider(more));
      assert First(one) + [] == First(one);
    }
  }

  // ---------------------------------------------------------------- counting

  /** How many of the nodes have these names. */
  function Times(nodes: seq<Node>, path: seq<string>): nat {
    if nodes == [] then 0 else Times(Init(nodes), path) + if NamesOf(Last(nodes)) == path then 1 else 0
  }

  lemma {:induction false} TimesConcat(a: seq<Node>, b: seq<Node>, path: seq<string>)
    ensures Times(a + b, path) == Times(a, path) + Times(b, path)
  {
    if b == [] {
      assert a + b == a;
    } else {
      assert Init(a + b) == a + Init(b) && Last(a + b) == Last(b);
      TimesConcat(a, Init(b), path);
    }
  }

  lemma {:induction false} TimesPrepend(level: Level, nodes: seq<Node>, path: seq<string>)
    ensures Times(Prepend(level, nodes), path)
            == if path != [] && path[0] == level.name then Times(nodes, path[1..]) else 0
  {
    if nodes != [] {
      assert Init(Prepend(level, nodes)) == Prepend(level, Init(nodes));
      TimesPrepend(level, Init(nodes), path);
      var node := Last(nodes);
      NamesCons(level, node);
      assert NamesOf([level] + node)[1..] == NamesOf(node);
      assert NamesOf([level] + node) == path ==> path[1..] == NamesOf(node) && path[0] == level.name;
      assert path != [] && path[0] == level.name && NamesOf(node) == path[1..] ==> path == [level.name] + NamesOf(node);
    }
  }

  /** What a wildcard lists in the children from the i-th on, counted in the one child of that name. */
  lemma {:induction false} TimesBelow(root: Entry, elems: Path, i: nat, path: seq<string>, k: nat)
    requires UniqueNames(root) && elems != [] && i <= |root.dir| && k < |root.dir|
    requires path != [] && path[0] == root.dir[k].0
    ensures var child, rest := root.dir[k].1, path[1..];
            Times(NodesBelow(root, elems, i), path)
            == if k < i then 0
               else Times(Nodes(child, elems[1..]), rest) + if elems[0].name == DOTS then Times(Nodes(child, elems), rest) else 0
    decreases |root.dir| - i
  {
    hide Times, Nodes, NodesBelow;
    if i < |root.dir| {
      TimesBelow(root, elems, i + 1, path, k);
      TimesOfChild(root, elems, i, path);
      assert UniqueNames(root);
    } else {
      TimesAtEnd(root, elems, path);
    }
  }

  lemma TimesAtEnd(root: Entry, elems: Path, path: seq<string>)
    requires elems != []
    ensures Times(NodesBelow(root, elems, |root.dir|), path) == 0
  {
  }

  lemma TimesOfChild(root: Entry, elems: Path, i: nat, path: seq<string>)
    requires elems != [] && i < |root.dir|
    ensures var (name, child) := root.dir[i];
            Times(NodesBelow(root, elems, i), path)
            == Times(NodesBelow(root, elems, i + 1), path)
               + if path == [] || path[0] != name then 0
                 else Times(Nodes(child, elems[1..]), path[1..])
                      + if elems[0].name == DOTS then Times(Nodes(child, elems), path[1..]) else 0
  {
    var (name, child) := root.dir[i];
    var level := Level(name, "");
    var one := Prepend(level, Nodes(child, elems[1..]));
    var more := if elems[0].name == DOTS then Prepend(level, Nodes(child, elems)) else [];
    var rest := NodesBelow(root, elems, i + 1);
    assert NodesBelow(root, elems, i) == one + more + rest;
    TimesConcat(one + more, rest, path);
    TimesConcat(one, more, path);
    TimesPrepend(level, Nodes(child, elems[1..]), path);
    TimesPrepend(level, Nodes(child, elems), path);
  }

  lemma {:induction false} TimesNowhere(root: Entry, elems: Path, i: nat, path: seq<string>)
    requires elems != [] && i <= |root.dir|
    requires path == [] || forall k :: 0 <= k < |root.dir| ==> root.dir[k].0 != path[0]
    ensures Times(NodesBelow(root, elems, i), path) == 0
    decreases |root.dir| - i
  {
    hide Times, Nodes, NodesBelow;
    if i < |root.dir| {
      TimesNowhere(root, elems, i + 1, path);
      TimesOfChild(root, elems, i, path);
    } else {
      TimesAtEnd(root, elems, path);
    }
  }

  /** A path is listed as often as there are widths with which the pattern fits it. */
  lemma {:induction false} ListedPerWidths(root: Entry, elems: Path, path: seq<string>)
    requires UniqueNames(root)
    ensures Times(Nodes(root, elems), path) == |AllWidths(root, elems, path)|
    decreases |path|
  {
    if elems == [] {
      TimesOfNone(path);
    } else if path == [] || Child(root, path[0]).None? {
      TimesNoChild(root, elems, path);
    } else {
      var child, rest := Child(root, path[0]).value, path[1..];
      ChildBelow(root, path[0]);
      ListedPerWidths(child, elems[1..], rest);
      ListedPerWidths(child, elems, rest);
      TimesByChild(root, elems, path);
      hide Times, Nodes, NodesBelow;
    }
  }

  lemma TimesOfNone(path: seq<string>)
    ensures Times([[]], path) == if path == [] then 1 else 0
  {
    var nodes: seq<Node> := [[]];
    assert Init(nodes) == [] && Last(nodes) == [] && NamesOf(Last(nodes)) == [];
  }

  lemma TimesNoChild(root: Entry, elems: Path, path: seq<string>)
    requires UniqueNames(root) && elems != [] && (path == [] || Child(root, path[0]).None?)
    ensures Times(Nodes(root, elems), path) == 0
  {
    if IsWild(elems[0]) {
      if path != [] {
        forall k | 0 <= k < |root.dir|
          ensures root.dir[k].0 != path[0]
        {
          ChildFromAt(root.dir, k);
        }
      }
      TimesNowhere(root, elems, 0, path);
    } else {
      TimesByName(root, elems, path);
    }
  }

  lemma TimesByName(root: Entry, elems: Path, path: seq<string>)
    requires elems != [] && !IsWild(elems[0])
    ensures Times(Nodes(root, elems), path)
            == if path == [] || !AcceptsName(root, elems[0], path[0]) then 0
               else Times(Nodes(Child(root, path[0]).value, elems[1..]), path[1..])
  {
    var entry := Child(root, elems[0].name);
    if entry.Some? && KeysAllowed(entry.value, elems[0].keys) {
      var level := Level(elems[0].name, KeyText(Fields(entry.value.key), elems[0].keys));
      TimesPrepend(level, Nodes(entry.value, elems[1..]), path);
    }
  }

  lemma TimesByChild(root: Entry, elems: Path, path: seq<string>)
    requires UniqueNames(root) && elems != [] && path != [] && Child(root, path[0]).Some?
    ensures var child, rest := Child(root, path[0]).value, path[1..];
            Times(Nodes(root, elems), path)
            == if !AcceptsName(root, elems[0], path[0]) then 0
               else Times(Nodes(child, elems[1..]), rest) + if elems[0].name == DOTS then Times(Nodes(child, elems), rest) else 0
  {
    if IsWild(elems[0]) {
      ChildBelow(root, path[0]);
      var k :| 0 <= k < |root.dir| && root.dir[k] == (path[0], Child(root, path[0]).value);
      TimesBelow(root, elems, 0, path, k);
    } else {
      TimesByName(root, elems, path);
    }
  }

  lemma {:induction false} TimesAt(nodes: seq<Node>, path: seq<string>, i: nat)
    requires i < |nodes| && NamesOf(nodes[i]) == path
    ensures Times(nodes, path) >= 1
  {
    if i < |nodes| - 1 {
      TimesAt(Init(nodes), path, i);
    }
  }

  lemma {:induction false} TimesTwice(nodes: seq<Node>, path: seq<string>, i: nat, j: nat)
    requires i < j < |nodes| && NamesOf(nodes[i]) == NamesOf(nodes[j]) == path
    ensures Times(nodes, path) >= 2
  {
    if j < |nodes| - 1 {
      TimesTwice(Init(nodes), path, i, j);
    } else {
      TimesAt(Init(nodes), path, i);
    }
  }

  lemma {:induction false} TimesSome(nodes: seq<Node>, path: seq<string>) returns (i: nat)
    requires Times(nodes, path) >= 1
    ensures i < |nodes| && NamesOf(nodes[i]) == path
  {
    if NamesOf(Last(nodes)) == path {
      i := |nodes| - 1;
    } else {
      i := TimesSome(Init(nodes), path);
    }
  }

  lemma {:induction false} TimesMore(nodes: seq<Node>, path: seq<string>)
    requires Times(nodes, path) >= 2
    ensures !NoRepeats(nodes)
  {
    if NamesOf(Last(nodes)) == path {
      var i := TimesSome(Init(nodes), path);
      assert NamesOf(nodes[i]) == NamesOf(nodes[|nodes| - 1]);
    } else {
      TimesMore(Init(nodes), path);
      var i, j :| 0 <= i < j < |nodes| - 1 && NamesOf(Init(nodes)[i]) == NamesOf(Init(nodes)[j]);
      assert NamesOf(nodes[i]) == NamesOf(nodes[j]);
    }
  }

  /** Only one way to share out the levels of any path. */
  ghost predicate OneWay(root: Entry, elems: Path) {
    forall path, v, w :: Fits(root, elems, path, v) && Fits(root, elems, path, w) ==> v == w
  }

  /** Over every schema tree and pattern, no node is listed twice exactly when no path has two ways to fit. */
  lemma NoRepeatsExact(root: Entry, elems: Path)
    requires UniqueNames(root)
    ensures NoRepeats(Nodes(root, elems)) <==> OneWay(root, elems)
  {
    var nodes := Nodes(root, elems);
    if NoRepeats(nodes) {
      forall path, v, w | Fits(root, elems, path, v) && Fits(root, elems, path, w)
        ensures v == w
      {
        SameWay(root, elems, path, v, w);
      }
    }
    if OneWay(root, elems) {
      forall i, j | 0 <= i < j < |nodes|
        ensures NamesOf(nodes[i]) != NamesOf(nodes[j])
      {
        NotTwice(root, elems, i, j);
      }
    }
  }

  lemma SameWay(root: Entry, elems: Path, path: seq<string>, v: seq<nat>, w: seq<nat>)
    requires UniqueNames(root) && NoRepeats(Nodes(root, elems))
    requires Fits(root, elems, path, v) && Fits(root, elems, path, w)
    ensures v == w
  {
    var ws := AllWidths(root, elems, path);
    hide Fits, AllWidths, Nodes, NoRepeats, Times;
    WidthsExact(root, elems, path, v);
    WidthsExact(root, elems, path, w);
    ListedPerWidths(root, elems, path);
    if |ws| >= 2 {
      TimesMore(Nodes(root, elems), path);
    }
  }

  lemma NotTwice(root: Entry, elems: Path, i: nat, j: nat)
    requires UniqueNames(root) && OneWay(root, elems) && i < j < |Nodes(root, elems)|
    ensures NamesOf(Nodes(root, elems)[i]) != NamesOf(Nodes(root, elems)[j])
  {
    var nodes := Nodes(root, elems);
    var path := NamesOf(nodes[i]);
    var ws := AllWidths(root, elems, path);
    ListedPerWidths(root, elems, path);
    WidthsDistinct(root, elems, path);
    if NamesOf(nodes[j]) == path {
      TimesTwice(nodes, path, i, j);
      WidthsExact(root, elems, path, ws[0]);
      WidthsExact(root, elems, path, ws[1]);
    }
  }

  // ---------------------------------------------------------------- which patterns repeat

  /** A schema tree in which every node has one child, all with the same key text. */
  function Chain(names: seq<string>, key: string): Entry {
    if names == [] then Entry(key, []) else Entry(key, [(names[0], Chain(names[1..], key))])
  }

  lemma ChainStep(names: seq<string>, key: string)
    requires names != []
    ensures Child(Chain(names, key), names[0]) == Some(Chain(names[1..], key))
    ensures Chain(names[1..], key).key == key
  {
  }

  lemma {:induction false} ChainUnique(names: seq<string>, key: string)
    ensures UniqueNames(Chain(names, key))
  {
    if names != [] {
      ChainUnique(names[1..], key);
    }
  }

  predicate KeysKnown(key: string, elems: Path) {
    forall i :: 0 <= i < |elems| ==> KeysAllowed(Entry(key, []), elems[i].keys)
  }

  /** The elements lay themselves out over the names, each over its width. */
  predicate Lays(elems: Path, names: seq<string>, widths: seq<nat>) {
    if elems == [] then names == [] && widths == []
    else
      && widths != [] && 1 <= widths[0] <= |names|
      && (elems[0].name != DOTS ==> widths[0] == 1)
      && (!IsWild(elems[0]) ==> names[0] == elems[0].name)
      && Lays(elems[1..], names[widths[0]..], widths[1..])
  }

  lemma {:induction false} LaysFits(elems: Path, names: seq<string>, widths: seq<nat>, key: string)
    requires Lays(elems, names, widths) && KeysKnown(key, elems)
    ensures Fits(Chain(names, key), elems, names, widths)
    decreases |names|
  {
    if elems == [] {
      FitsNone(Chain(names, key), names, widths);
    } else {
      ChainStep(names, key);
      assert KeysAllowed(Entry(key, []), elems[0].keys);
      if widths[0] == 1 {
        LaysFits(elems[1..], names[1..], widths[1..], key);
        FitsOne(Chain(names, key), elems, names, widths);
      } else {
        var less := [widths[0] - 1] + widths[1..];
        assert names[1..][less[0]..] == names[widths[0]..] && less[1..] == widths[1..];
        LaysFits(elems, names[1..], less, key);
        FitsMore(Chain(names, key), elems, names, widths);
      }
    }
  }

  lemma {:induction false} LaysConcat(a: Path, p: seq<string>, v: seq<nat>, b: Path, q: seq<string>, w: seq<nat>)
    requires Lays(a, p, v) && Lays(b, q, w)
    ensures Lays(a + b, p + q, v + w)
  {
    if a == [] {
      assert a + b == b && p + q == q && v + w == w;
    } else {
      LaysConcat(a[1..], p[v[0]..], v[1..], b, q, w);
      assert (a + b)[1..] == a[1..] + b && (v + w)[1..] == v[1..] + w;
      assert (p + q)[v[0]..] == p[v[0]..] + q;
    }
  }

  function NamesFor(elems: Path): (r: seq<string>)
    ensures |r| == |elems|
  {
    if elems == [] then [] else [if IsWild(elems[0]) then "x" else elems[0].name] + NamesFor(elems[1..])
  }

  function Ones(n: nat): (r: seq<nat>)
    ensures |r| == n && forall i :: 0 <= i < n ==> r[i] == 1
  {
    seq(n, _ => 1)
  }

  lemma {:induction false} LaysOnes(elems: Path)
    ensures Lays(elems, NamesFor(elems), Ones(|elems|))
  {
    if elems != [] {
      LaysOnes(elems[1..]);
      assert Ones(|elems|)[1..] == Ones(|elems| - 1) && NamesFor(elems)[1..] == NamesFor(elems[1..]);
    }
  }

  lemma LaysDots(e: Elem, names: seq<string>)
    requires e.name == DOTS && names != []
    ensures Lays([e], names, [|names|])
  {
  }

  lemma {:induction false} FindDots(elems: Path) returns (i: nat)
    requires DotsIn(elems) >= 1
    ensures i < |elems| && elems[i].name == DOTS && DotsIn(elems[i + 1..]) == DotsIn(elems) - 1
  {
    if elems[0].name == DOTS {
      i := 0;
    } else {
      i := FindDots(elems[1..]);
      assert elems[1..][i + 1..] == elems[i + 2..];
      i := i + 1;
    }
  }

  lemma ContainsMore(s: string, part: string, more: string)
    requires Contains(s, part)
    ensures Contains(s + more, part) && Contains(more + s, part)
  {
    var i :| 0 <= i <= |s| && part <= s[i..];
    assert (s + more)[i..] == s[i..] + more;
    assert (more + s)[|more| + i..] == s[i..];
  }

  lemma {:induction false} KeyForSet(names: set<string>) returns (key: string)
    ensures forall k :: k in names ==> Contains(key, k)
    decreases |names|
  {
    key := "";
    if names != {} {
      var k :| k in names;
      var rest := KeyForSet(names - {k});
      key := rest + k;
      assert Contains(k, k) by { assert k[0..] == k; }
      ContainsMore(k, k, rest);
      forall l | l in names
        ensures Contains(key, l)
      {
        if l != k {
          ContainsMore(rest, l, k);
        }
      }
    }
  }

  lemma {:induction false} KeyFor(elems: Path) returns (key: string)
    ensures KeysKnown(key, elems)
  {
    key := "";
    if elems != [] {
      var rest := KeyFor(elems[1..]);
      var own := KeyForSet(elems[0].keys.Keys);
      key := own + rest;
      forall i | 0 <= i < |elems|
        ensures KeysAllowed(Entry(key, []), elems[i].keys)
      {
        forall k | k in elems[i].keys
          ensures Contains(key, k)
        {
          if i == 0 {
            ContainsMore(own, k, rest);
          } else {
            assert KeysAllowed(Entry(rest, []), elems[1..][i - 1].keys);
            ContainsMore(rest, k, own);
          }
        }
      }
    }
  }

  lemma LaysBefore(a: Path, b: Path, q: seq<string>, w: seq<nat>)
    requires Lays(b, q, w)
    ensures Lays(a + b, NamesFor(a) + q, Ones(|a|) + w)
  {
    hide *;
    LaysOnes(a);
    LaysConcat(a, NamesFor(a), Ones(|a|), b, q, w);
  }

  lemma DotsBefore(d: Elem, p: seq<string>, b: Path, q: seq<string>, w: seq<nat>)
    requires d.name == DOTS && p != [] && Lays(b, q, w)
    ensures Lays([d] + b, p + q, [|p|] + w)
  {
    hide *;
    LaysDots(d, p);
    LaysConcat([d], p, [|p|], b, q, w);
  }

  /** A pattern with the names it lies over and the width of each element. */
  datatype Layout = Layout(elems: Path, names: seq<string>, widths: seq<nat>)

  predicate Fitting(l: Layout) {
    Lays(l.elems, l.names, l.widths)
  }

  /** Every element over one name. */
  function Flat(elems: Path): Layout {
    Layout(elems, NamesFor(elems), Ones(|elems|))
  }

  /** The elements pre over one name each and the '...' d over p, before what is laid out already. */
  function Before(pre: Path, d: Elem, p: seq<string>, l: Layout): Layout {
    Layout(pre + ([d] + l.elems), NamesFor(pre) + (p + l.names), Ones(|pre|) + ([|p|] + l.widths))
  }

  lemma FlatFits(elems: Path)
    ensures Fitting(Flat(elems))
  {
    LaysOnes(elems);
  }

  lemma BeforeFits(pre: Path, d: Elem, p: seq<string>, l: Layout)
    requires d.name == DOTS && p != [] && Fitting(l)
    ensures Fitting(Before(pre, d, p, l))
  {
    hide Lays, NamesFor, Ones;
    DotsBefore(d, p, l.elems, l.names, l.widths);
    LaysBefore(pre, [d] + l.elems, p + l.names, [|p|] + l.widths);
  }

  function TwoDots(pre: Path, d: Elem, p: seq<string>, mid: Path, e: Elem, q: seq<string>, post: Path): Layout {
    Before(pre, d, p, Before(mid, e, q, Flat(post)))
  }

  lemma TwoDotsFit(pre: Path, d: Elem, p: seq<string>, mid: Path, e: Elem, q: seq<string>, post: Path)
    requires d.name == DOTS && e.name == DOTS && p != [] && q != []
    ensures Fitting(TwoDots(pre, d, p, mid, e, q, post))
  {
    hide Fitting, Flat, Before;
    FlatFits(post);
    BeforeFits(mid, e, q, Flat(post));
    BeforeFits(pre, d, p, Before(mid, e, q, Flat(post)));
  }

  lemma SplitAtDots(elems: Path) returns (pre: Path, d: Elem, mid: Path, e: Elem, post: Path)
    requires DotsIn(elems) >= 2
    ensures elems == pre + ([d] + (mid + ([e] + post))) && d.name == DOTS && e.name == DOTS
  {
    hide *;
    var i := FindDots(elems);
    var after := elems[i + 1..];
    var k := FindDots(after);
    pre, d, mid, e, post := elems[..i], elems[i], after[..k], after[k], after[k + 1..];
    assert after == mid + ([e] + post);
    assert elems == pre + ([d] + after);
  }

  /** Over x, the names of mid, x, the names of mid again, and x, two '...' around mid have two layouts. */
  lemma SameNames(pre: Path, d: Elem, mid: Path, e: Elem, post: Path)
    ensures var x := ["x"];
            var wide := x + NamesFor(mid) + x;
            var l, m := TwoDots(pre, d, x, mid, e, wide, post), TwoDots(pre, d, wide, mid, e, x, post);
            && l.elems == m.elems == pre + ([d] + (mid + ([e] + post)))
            && l.names == m.names && l.widths != m.widths
  {
    hide NamesFor, Ones;
    var x, m, b := ["x"], NamesFor(mid), NamesFor(post);
    var wide := x + m + x;
    assert x + (m + (wide + b)) == wide + (m + (x + b));
    assert TwoDots(pre, d, x, mid, e, wide, post).widths[|pre|] == |x|;
    assert TwoDots(pre, d, wide, mid, e, x, post).widths[|pre|] == |wide|;
  }

  /** So a pattern with two '...' lies over the same names in two ways. */
  lemma TwoLayouts(elems: Path) returns (l: Layout, m: Layout)
    requires DotsIn(elems) >= 2
    ensures Fitting(l) && Fitting(m)
    ensures l.elems == m.elems == elems && l.names == m.names && l.widths != m.widths
  {
    hide *;
    var pre, d, mid, e, post := SplitAtDots(elems);
    var x := ["x"];
    var wide := x + NamesFor(mid) + x;
    l, m := TwoDots(pre, d, x, mid, e, wide, post), TwoDots(pre, d, wide, mid, e, x, post);
    TwoDotsFit(pre, d, x, mid, e, wide, post);
    TwoDotsFit(pre, d, wide, mid, e, x, post);
    SameNames(pre, d, mid, e, post);
  }

  /** A pattern never lists a node twice, whatever the schema, exactly when it has at most one '...'. */
  lemma OneDotsExact(elems: Path)
    ensures (forall root :: UniqueNames(root) ==> NoRepeats(Nodes(root, elems))) <==> DotsIn(elems) <= 1
  {
    if DotsIn(elems) <= 1 {
      forall root | UniqueNames(root)
        ensures NoRepeats(Nodes(root, elems))
      {
        NodesNoRepeats(root, elems);
      }
    } else {
      var root := RepeatingTree(elems);
    }
  }

  lemma RepeatingTree(elems: Path) returns (root: Entry)
    requires DotsIn(elems) >= 2
    ensures UniqueNames(root) && !NoRepeats(Nodes(root, elems))
  {
    var l, m := TwoLayouts(elems);
    var key := KeyFor(elems);
    root := Chain(l.names, key);
    hide Chain, Nodes, NoRepeats, Lays, Fits;
    ChainUnique(l.names, key);
    LaysFits(elems, l.names, l.widths, key);
    LaysFits(elems, l.names, m.widths, key);
    NoRepeatsExact(root, elems);
  }
}
