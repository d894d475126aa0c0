/** gnmi/model/mo.go: finding a schema node, from the elements of a path or straight from its text. */
module Schema {
  import opened Text
  import opened XPath
  import opened KeyValues
  import opened PathText

  /** yang.Entry: the key names of a list, separated by spaces, and the children in some fixed order. */
  datatype Entry = Entry(key: string, dir: seq<(string, Entry)>)

  function ChildFrom(dir: seq<(string, Entry)>, name: string): (r: Option<Entry>)
    ensures r.None? <==> forall c :: c in dir ==> c.0 != name
    ensures r.Some? ==> (name, r.value) in dir
  {
    if dir == [] then None
    else if dir[0].0 == name then Some(dir[0].1)
    else ChildFrom(dir[1..], name)
  }

  /** entry.Dir[name]. */
  function Child(entry: Entry, name: string): Option<Entry> {
    ChildFrom(entry.dir, name)
  }

  /** The node that the names lead to. */
  function Descend(entry: Entry, names: seq<string>): Option<Entry> {
    if names == [] then Some(entry)
    else
      var parent := Descend(entry, Init(names));
      if parent.None? then None else Child(parent.value, Last(names))
  }

  function Names(p: Path): seq<string> {
    seq(|p|, i requires 0 <= i < |p| => p[i].name)
  }

  lemma {:induction false} NoneStays(entry: Entry, names: seq<string>, more: seq<string>)
    requires Descend(entry, names) == None
    ensures Descend(entry, names + more) == None
  {
    if more == [] {
      assert names + more == names;
    } else {
      NoneStays(entry, names, Init(more));
      assert Init(names + more) == names + Init(more);
    }
  }

  method FindSchemaByRelativeGNMIPath(base: Entry, path: Path) returns (r: Option<Entry>)
    ensures r == Descend(base, Names(path))
  {
    var entry := base;
    for i := 0 to |path|
      invariant Descend(base, Names(path)[..i]) == Some(entry)
    {
      assert Init(Names(path)[..i + 1]) == Names(path)[..i];
      var child := Child(entry, path[i].name);
      if child.None? {
        NoneStays(base, Names(path)[..i + 1], Names(path)[i + 1..]);
        assert Names(path)[..i + 1] + Names(path)[i + 1..] == Names(path);
        return None;
      }
      entry := child.value;
    }
    assert Names(path)[..|path|] == Names(path);
    return Some(entry);
  }

  // ---------------------------------------------------------------- the text scanner

  /** Where the scanner stands: start of the name being read, bracket depth, names looked up. */
  datatype Scan = Scan(begin: nat, depth: int, names: seq<string>)

  /** What reading the character at n does. */
  function Step(path: string, n: nat, st: Scan): Scan
    requires 1 <= n < |path| && st.begin <= n
  {
    if path[n] == '/' && st.depth <= 0 then
      Scan(n + 1, st.depth, if st.begin < n then st.names + [path[st.begin..n]] else st.names)
    else if path[n] == '[' && path[n - 1] != '\\' then
      Scan(n + 1, st.depth + 1, st.names + [path[st.begin..n]])
    else if path[n] == ']' && path[n - 1] != '\\' then
      Scan(n + 1, st.depth - 1, st.names)
    else st
  }

  /** The scanner after n characters. */
  function ScanTo(path: string, n: nat): (st: Scan)
    requires 1 <= n <= |path|
    ensures st.begin <= n
  {
    if n == 1 then Scan(if path[0] == '/' then 1 else 0, 0, [])
    else Step(path, n - 1, ScanTo(path, n - 1))
  }

  /** The names looked up in the first n characters, the one still being read included. */
  function Flushed(path: string, n: nat): seq<string>
    requires 1 <= n <= |path|
  {
    var st := ScanTo(path, n);
    if st.begin < n then st.names + [path[st.begin..n]] else st.names
  }

  /** All names the scanner looks up, or None for a text that starts with a bracket. */
  function Lookups(path: string): Option<seq<string>> {
    if path == "" then Some([])
    else if IsBracket(path[0]) then None
    else Some(Flushed(path, |path|))
  }

  /** FindSchemaByRelativeXPath, as a function: the names found in the text, looked up one by one. */
  function SchemaOf(base: Entry, path: string): Option<Entry> {
    if Lookups(path).None? then None else Descend(base, Lookups(path).value)
  }

  lemma {:induction false} NamesGrow(path: string, m: nat, n: nat)
    requires 1 <= m <= n <= |path|
    ensures ScanTo(path, m).names <= ScanTo(path, n).names
  {
    if m < n {
      NamesGrow(path, m, n - 1);
    }
  }

  /** A name that is not found ends the search. */
  lemma NotFound(base: Entry, path: string, n: nat)
    requires 1 <= n <= |path| && !IsBracket(path[0]) && Descend(base, ScanTo(path, n).names).None?
    ensures SchemaOf(base, path) == None
  {
    var names, all := ScanTo(path, n).names, Flushed(path, |path|);
    NamesGrow(path, n, |path|);
    NoneStays(base, names, all[|names|..]);
    assert names + all[|names|..] == all;
  }

  lemma DescendSnoc(base: Entry, names: seq<string>, name: string)
    ensures Descend(base, names + [name]) ==
            if Descend(base, names).None? then None else Child(Descend(base, names).value, name)
  {
    assert Init(names + [name]) == names;
  }

  /** The scanner looks up a name when it reaches n. */
  predicate LooksUp(path: string, n: nat, st: Scan)
    requires 1 <= n < |path|
  {
    || (path[n] == '/' && st.depth <= 0 && st.begin < n)
    || (path[n] == '[' && path[n - 1] != '\\')
  }

  /** Scanning one more character, seen from the node reached so far. */
  lemma Advance(base: Entry, path: string, n: nat, entry: Entry)
    requires 1 <= n < |path| && !IsBracket(path[0])
    requires Descend(base, ScanTo(path, n).names) == Some(entry)
    ensures var st := ScanTo(path, n);
            && st.begin <= n
            && ScanTo(path, n + 1) == Step(path, n, st)
            && Descend(base, ScanTo(path, n + 1).names) ==
               (if LooksUp(path, n, st) then Child(entry, path[st.begin..n]) else Some(entry))
            && (LooksUp(path, n, st) && Child(entry, path[st.begin..n]).None? ==> SchemaOf(base, path) == None)
  {
    var st := ScanTo(path, n);
    DescendSnoc(base, st.names, path[st.begin..n]);
    if LooksUp(path, n, st) && Child(entry, path[st.begin..n]).None? {
      NotFound(base, path, n + 1);
    }
  }

  lemma AdvanceLast(base: Entry, path: string, entry: Entry)
    requires path != "" && !IsBracket(path[0]) && Descend(base, ScanTo(path, |path|).names) == Some(entry)
    ensures var begin := ScanTo(path, |path|).begin;
            begin <= |path| &&
            SchemaOf(base, path) == if begin < |path| then Child(entry, path[begin..]) else Some(entry)
  {
    var st := ScanTo(path, |path|);
    DescendSnoc(base, st.names, path[st.begin..]);
    assert path[st.begin..|path|] == path[st.begin..];
  }

  lemma ScanBegins(base: Entry, path: string)
    ensures path == "" ==> SchemaOf(base, path) == Some(base)
    ensures path != "" && IsBracket(path[0]) ==> SchemaOf(base, path) == None
    ensures path != "" && !IsBracket(path[0]) ==> ScanTo(path, 1) == Scan(if path[0] == '/' then 1 else 0, 0, [])
    ensures Descend(base, []) == Some(base)
  {
  }

  method FindSchemaByRelativeXPath(base: Entry, path: string) returns (r: Option<Entry>)
    ensures r == SchemaOf(base, path)
  {
    hide Descend, ScanTo, Child, SchemaOf;
    ScanBegins(base, path);
    var entry := base;
    var length := |path|;
    if length <= 0 {
      return Some(entry);
    }
    var begin, end := 0, 0;
    var insideBrackets := 0;
    if path[end] == '/' {
      begin := 1;
    } else if path[end] == '[' || path[end] == ']' {
      return None;
    }
    end := end + 1;
    while end < length
      invariant 1 <= end <= length
      invariant ScanTo(path, end).begin == begin && ScanTo(path, end).depth == insideBrackets
      invariant Descend(base, ScanTo(path, end).names) == Some(entry)
    {
      Advance(base, path, end, entry);
      if path[end] == '/' {
        if insideBrackets <= 0 {
          if begin < end {
            var child := Child(entry, path[begin..end]);
            if child.None? {
              return None;
            }
            entry := child.value;
            begin := end + 1;
          } else {
            begin := begin + 1;
          }
        }
        end := end + 1;
      } else if path[end] == '[' {
        if path[end - 1] != '\\' {
          insideBrackets := insideBrackets + 1;
          var child := Child(entry, path[begin..end]);
          if child.None? {
            return None;
          }
          entry := child.value;
          begin := end + 1;
        }
        end := end + 1;
      } else if path[end] == ']' {
        if path[end - 1] != '\\' {
          insideBrackets := insideBrackets - 1;
          begin := end + 1;
        }
        end := end + 1;
      } else {
        end := end + 1;
      }
    }
    AdvanceLast(base, path, entry);
    if begin < end {
      return Child(entry, path[begin..]);
    }
    return Some(entry);
  }

  // ---------------------------------------------------------------- printed paths

  /** Identifiers, and values whose brackets are escaped and that do not end in a backslash. */
  predicate IsKeyed(e: Elem) {
    && IsIdentifier(e.name)
    && forall k :: k in e.keys ==> IsIdentifier(k) && Quiet(e.keys[k]) && !Escapes(e.keys[k])
  }

  predicate IsScannable(e: Elem) {
    IsKeyed(e) && |e.keys| <= 1
  }

  /** Where nothing is a separator or an open bracket, the scanner does not move. */
  lemma {:induction false} ScanIdle(path: string, m: nat, n: nat)
    requires 1 <= m <= n <= |path|
    requires forall k :: m <= k < n && IsBracket(path[k]) ==> path[k - 1] == '\\'
    requires ScanTo(path, m).depth > 0 || forall k :: m <= k < n ==> path[k] != '/'
    ensures ScanTo(path, n) == ScanTo(path, m)
  {
    if m < n {
      ScanIdle(path, m, n - 1);
    }
  }

  /** The text w stands in s at b. */
  ghost predicate Stands(s: string, b: nat, w: string) {
    b + |w| <= |s| && forall k :: b <= k < b + |w| ==> s[k] == w[k - b]
  }

  lemma ScanName(path: string, a: nat, name: string, done: seq<string>)
    requires 1 <= a <= |path| && ScanTo(path, a) == Scan(a, 0, done)
    requires IsIdentifier(name) && Stands(path, a, name)
    ensures ScanTo(path, a + |name|) == Scan(a, 0, done)
    ensures path[a..a + |name|] == name && path[a + |name| - 1] != '\\'
  {
    IdentifierQuiet(name);
    hide IsIdentifier;
    forall k | a <= k < a + |name|
      ensures !IsBracket(path[k]) && path[k] != '/' && path[k] != '\\'
    {
      assert path[k] == name[k - a];
    }
    ScanIdle(path, a, a + |name|);
  }

  lemma ScanPair(path: string, a: nat, b: nat, key: string, v: string, done: seq<string>)
    requires 1 <= a < b < |path| && ScanTo(path, b) == Scan(a, 0, done) && path[b - 1] != '\\'
    requires IsIdentifier(key) && Quiet(v) && !Escapes(v) && Stands(path, b, PairText(key, v))
    ensures var n := b + |PairText(key, v)|;
            ScanTo(path, n) == Scan(n, 0, done + [path[a..b]])
  {
    var inner := key + "=" + v;
    IdentifierQuiet(key);
    QuietConcat(key + "=", v);
    assert PairText(key, v) == "[" + inner + "]";
    assert Last(inner) != '\\' by {
      assert if v == "" then Last(inner) == '=' else Last(inner) == Last(v);
    }
    hide IsIdentifier, PairText;
    ScanInner(path, a, b, inner, done);
  }

  lemma ScanInner(path: string, a: nat, b: nat, inner: string, done: seq<string>)
    requires 1 <= a < b < |path| && ScanTo(path, b) == Scan(a, 0, done) && path[b - 1] != '\\'
    requires inner != "" && Quiet(inner) && Last(inner) != '\\' && Stands(path, b, "[" + inner + "]")
    ensures var n := b + |inner| + 2;
            ScanTo(path, n) == Scan(n, 0, done + [path[a..b]])
  {
    var n := b + |inner| + 1;
    var w := "[" + inner + "]";
    assert path[b] == w[0] && path[n] == w[n - b];
    assert ScanTo(path, b + 1) == Scan(b + 1, 1, done + [path[a..b]]);
    forall k | b + 1 <= k < n && IsBracket(path[k])
      ensures path[k - 1] == '\\'
    {
      assert path[k] == w[k - b] == inner[k - b - 1];
      assert path[k - 1] == w[k - 1 - b];
      assert inner[k - b - 2] == '\\';
    }
    ScanIdle(path, b + 1, n);
    assert path[n - 1] == w[n - 1 - b] == Last(inner);
  }

  lemma StandsConcat(s: string, b: nat, u: string, v: string)
    requires Stands(s, b, u + v)
    ensures Stands(s, b, u) && Stands(s, b + |u|, v)
  {
    forall k | b <= k < b + |u|
      ensures s[k] == u[k - b]
    {
      assert s[k] == (u + v)[k - b];
    }
    forall k | b + |u| <= k < b + |u| + |v|
      ensures s[k] == v[k - b - |u|]
    {
      assert s[k] == (u + v)[k - b];
    }
  }

  lemma SuffixStands(s: string, b: nat, u: string, v: string)
    requires b <= |s| && s[b..] == u + v
    ensures Stands(s, b, u) && b + |u| <= |s| && s[b + |u|..] == v
  {
    SkipPrefix(s, b, u, v);
    forall k | b <= k < b + |u|
      ensures s[k] == u[k - b]
    {
      assert s[k] == s[b..b + |u|][k - b];
    }
  }

  lemma ScanNamed(path: string, a: nat, name: string, done: seq<string>)
    requires 1 <= a <= |path| && ScanTo(path, a) == Scan(a, 0, done)
    requires IsIdentifier(name) && Stands(path, a, name)
    ensures var n := a + |name|;
            ScanTo(path, n).depth == 0 && Flushed(path, n) == done + [name]
  {
    ScanName(path, a, name, done);
  }

  lemma ScanKeyed(path: string, a: nat, name: string, key: string, v: string, done: seq<string>)
    requires 1 <= a <= |path| && ScanTo(path, a) == Scan(a, 0, done)
    requires IsIdentifier(name) && IsIdentifier(key) && Quiet(v) && !Escapes(v)
    requires Stands(path, a, name + PairText(key, v))
    ensures var n := a + |name + PairText(key, v)|;
            && ScanTo(path, n) == Scan(n, 0, done + [name]) && Flushed(path, n) == done + [name]
            && path[n - 1] == ']'
  {
    StandsConcat(path, a, name, PairText(key, v));
    ScanName(path, a, name, done);
    assert name != "" && PairText(key, v) != "" && Last(PairText(key, v)) == ']';
    var b := a + |name|;
    hide IsIdentifier, PairText, Quiet, ScanTo;
    ScanPair(path, a, b, key, v, done);
  }

  /** Where the scanner is at the end of an element. */
  ghost predicate AtEnd(path: string, b: nat, done: seq<string>)
    requires b <= |path|
  {
    if b == 0 then done == [] else ScanTo(path, b).depth == 0 && Flushed(path, b) == done
  }

  /** One printed element, read from where its name starts. */
  lemma ScanElem(path: string, a: nat, e: Elem, order: seq<string>, done: seq<string>)
    requires 1 <= a <= |path| && ScanTo(path, a) == Scan(a, 0, done)
    requires IsKeyed(e) && |e.keys| <= 1 && IsOrder(order, e.keys) && Stands(path, a, PrintElem(e, order))
    ensures var n := a + |PrintElem(e, order)|;
            AtEnd(path, n, done + [e.name])
  {
    hide ScanTo, Flushed, Stands;
    if order == [] {
      assert PrintElem(e, order) == e.name;
      ScanNamed(path, a, e.name, done);
    } else {
      OneKey(e, order);
      ScanKeyed(path, a, e.name, order[0], e.keys[order[0]], done);
    }
  }

  lemma TwoKeys(e: Elem, order: seq<string>)
    requires IsOrder(order, e.keys) && |order| >= 2
    ensures |e.keys| >= 2
  {
    var keys := e.keys.Keys;
    assert order[0] in keys && order[1] in keys && order[0] != order[1];
    assert order[1] in keys - {order[0]};
    assert |keys - {order[0]}| == |keys| - 1;
  }

  lemma OneKey(e: Elem, order: seq<string>)
    requires |e.keys| <= 1 && IsOrder(order, e.keys) && order != []
    ensures order[0] in e.keys
    ensures PrintPairs(order, e.keys) == PairText(order[0], e.keys[order[0]])
  {
    if |order| >= 2 {
      TwoKeys(e, order);
    }
    assert order[0] in e.keys && order[1..] == [];
  }

  lemma PrintedCons(p: Path, orders: seq<seq<string>>)
    requires AreOrders(orders, p) && p != []
    ensures AreOrders(orders[1..], p[1..])
    ensures Printed(p, orders) == "/" + (PrintElem(p[0], orders[0]) + Printed(p[1..], orders[1..]))
    ensures Names(p) == [p[0].name] + Names(p[1..])
  {
    assert PrintedElems(p, orders)[1..] == PrintedElems(p[1..], orders[1..]);
    ConcatAssoc("/", PrintElem(p[0], orders[0]), Printed(p[1..], orders[1..]));
  }

  lemma ScanSlash(path: string, b: nat, done: seq<string>)
    requires b < |path| && path[b] == '/'
    requires if b == 0 then done == [] else ScanTo(path, b).depth == 0 && Flushed(path, b) == done
    ensures ScanTo(path, b + 1) == Scan(b + 1, 0, done)
  {
  }

  /** Over the '/' to the next element. */
  lemma NextElem(path: string, b: nat, p: Path, orders: seq<seq<string>>, done: seq<string>)
    requires AreOrders(orders, p) && p != [] && b <= |path| && path[b..] == Printed(p, orders)
    requires AtEnd(path, b, done)
    ensures AreOrders(orders[1..], p[1..]) && IsOrder(orders[0], p[0].keys)
    ensures b < |path| && path[b] == '/' && ScanTo(path, b + 1) == Scan(b + 1, 0, done)
    ensures var w := PrintElem(p[0], orders[0]);
            && Stands(path, b + 1, w) && b + 1 + |w| <= |path|
            && path[b + 1 + |w|..] == Printed(p[1..], orders[1..])
    ensures done + Names(p) == done + [p[0].name] + Names(p[1..])
  {
    var w, rest := PrintElem(p[0], orders[0]), Printed(p[1..], orders[1..]);
    hide ScanTo, Flushed;
    FirstOrder(p, orders);
    PrintedCons(p, orders);
    hide Printed, PrintElem, AreOrders;
    SuffixStands(path, b, "/", w + rest);
    SuffixStands(path, b + 1, w, rest);
    ScanSlash(path, b, done);
    ConcatAssoc(done, [p[0].name], Names(p[1..]));
  }

  /** From b on, the text of the remaining elements yields their names. */
  lemma {:induction false} ScanElems(path: string, b: nat, p: Path, orders: seq<seq<string>>, done: seq<string>)
    requires AreOrders(orders, p) && forall e :: e in p ==> IsScannable(e)
    requires b <= |path| && path[b..] == Printed(p, orders) && AtEnd(path, b, done) && (b == 0 ==> p != [])
    ensures path != "" && (b == 0 ==> path[0] == '/') && Flushed(path, |path|) == done + Names(p)
    decreases p
  {
    hide ScanTo, Flushed, IsKeyed;
    if p == [] {
      assert Names(p) == [] && b == |path|;
    } else {
      var w := PrintElem(p[0], orders[0]);
      NextElem(path, b, p, orders, done);
      assert IsKeyed(p[0]) && |p[0].keys| <= 1 by { assert IsScannable(p[0]); }
      hide Printed, PrintElem, AreOrders, Names, IsOrder, Stands;
      ScanElem(path, b + 1, p[0], orders[0], done);
      ScanElems(path, b + 1 + |w|, p[1..], orders[1..], done + [p[0].name]);
    }
  }

  lemma FirstOrder(p: Path, orders: seq<seq<string>>)
    requires AreOrders(orders, p) && p != []
    ensures IsOrder(orders[0], p[0].keys) && forall k :: k in orders[0] ==> k in p[0].keys
  {
  }

  /** The scanner refines the structured lookup: on the text of a path with at most one key an
      element it ends at the node, or at nil, where the elements themselves lead. */
  lemma ScannerRefinesLookup(base: Entry, p: Path, orders: seq<seq<string>>)
    requires AreOrders(orders, p) && forall e :: e in p ==> IsScannable(e)
    ensures SchemaOf(base, Printed(p, orders)) == Descend(base, Names(p))
  {
    var path := Printed(p, orders);
    if p == [] {
      assert PrintedElems(p, orders) == [] && Names(p) == [];
    } else {
      assert path[0..] == path;
      ScanElems(path, 0, p, orders, []);
      assert [] + Names(p) == Names(p);
    }
  }

  /** No node that these names lead through has a child without a name. */
  ghost predicate NoEmptyChild(base: Entry, names: seq<string>) {
    forall i :: 0 <= i <= |names| ==> Descend(base, names[..i] + [""]).None?
  }

  /** An element with two keys or more ends the search: between its pairs the scanner looks up an empty name. */
  lemma SeveralHere(base: Entry, path: string, a: nat, e: Elem, order: seq<string>, done: seq<string>)
    requires 1 <= a <= |path| && path[0] == '/' && ScanTo(path, a) == Scan(a, 0, done)
    requires IsKeyed(e) && |e.keys| > 1 && IsOrder(order, e.keys) && Stands(path, a, PrintElem(e, order))
    requires Descend(base, done + [e.name] + [""]).None?
    ensures SchemaOf(base, path) == None
  {
    hide ScanTo, Descend, PairText, PrintElem, IsIdentifier, Quiet;
    var rest := PrintSeveral(e, order);
    var key := order[0];
    var w := e.name + PairText(key, e.keys[key]);
    StandsConcat(path, a, w, rest);
    assert path[a + |w|] == rest[0] && !IsBracket(path[0]);
    hide *;
    PairThenPair(base, path, a, e.name, key, e.keys[key], done);
  }

  lemma PairThenPair(base: Entry, path: string, a: nat, name: string, key: string, v: string, done: seq<string>)
    requires 1 <= a <= |path| && !IsBracket(path[0]) && ScanTo(path, a) == Scan(a, 0, done)
    requires IsIdentifier(name) && IsIdentifier(key) && Quiet(v) && !Escapes(v)
    requires Stands(path, a, name + PairText(key, v))
    requires var n := a + |name + PairText(key, v)|; n < |path| && path[n] == '['
    requires Descend(base, done + [name] + [""]).None?
    ensures SchemaOf(base, path) == None
  {
    var n := a + |name + PairText(key, v)|;
    hide *;
    ScanKeyed(path, a, name, key, v, done);
    EmptyName(path, n, done + [name]);
    NotFound(base, path, n + 1);
  }

  lemma PrintSeveral(e: Elem, order: seq<string>) returns (rest: string)
    requires IsKeyed(e) && |e.keys| > 1 && IsOrder(order, e.keys)
    ensures order != [] && order[0] in e.keys && rest != "" && rest[0] == '['
    ensures IsIdentifier(e.name) && IsIdentifier(order[0]) && Quiet(e.keys[order[0]]) && !Escapes(e.keys[order[0]])
    ensures PrintElem(e, order) == (e.name + PairText(order[0], e.keys[order[0]])) + rest
  {
    KeysInOrder(e, order);
    rest := PrintPairs(order[1..], e.keys);
    assert order[0] in e.keys && order[1..][0] == order[1] && order[1] in e.keys;
    hide IsIdentifier, Quiet, Escapes;
    ConcatAssoc(e.name, PairText(order[0], e.keys[order[0]]), rest);
  }

  lemma KeysInOrder(e: Elem, order: seq<string>)
    requires IsOrder(order, e.keys) && |e.keys| > 1
    ensures |order| > 1
  {
    var keys := e.keys.Keys;
    var k :| k in keys;
    assert |keys - {k}| == |keys| - 1;
    var l :| l in keys - {k};
    assert k in order && l in order;
  }

  predicate AllKeyed(p: Path) {
    forall e :: e in p ==> IsKeyed(e)
  }

  predicate HasSeveral(p: Path) {
    exists e :: e in p && |e.keys| > 1
  }

  lemma HeadOrTail(p: Path)
    requires HasSeveral(p) && AllKeyed(p)
    ensures p != [] && IsKeyed(p[0]) && AllKeyed(p[1..]) && (|p[0].keys| > 1 || HasSeveral(p[1..]))
  {
    hide IsKeyed;
    var i :| 0 <= i < |p| && |p[i].keys| > 1;
    if i > 0 {
      assert p[1..][i - 1] == p[i];
    }
  }

  /** From b on there is the text of elements of which one has several keys. */
  ghost predicate SeveralAhead(base: Entry, path: string, b: nat, p: Path, orders: seq<seq<string>>, done: seq<string>) {
    && AreOrders(orders, p) && AllKeyed(p) && HasSeveral(p)
    && b <= |path| && path[b..] == Printed(p, orders) && AtEnd(path, b, done)
    && path != "" && path[0] == '/' && NoEmptyChild(base, done + Names(p))
  }

  lemma SeveralParts(base: Entry, path: string, b: nat, p: Path, orders: seq<seq<string>>, done: seq<string>)
    ensures SeveralAhead(base, path, b, p, orders, done)
            <==> (&& AreOrders(orders, p) && AllKeyed(p) && HasSeveral(p)
                  && b <= |path| && path[b..] == Printed(p, orders) && AtEnd(path, b, done)
                  && path != "" && path[0] == '/' && NoEmptyChild(base, done + Names(p)))
    ensures AreOrders(orders, p) ==> |orders| == |p|
  {
    hide AllKeyed, HasSeveral, AtEnd, NoEmptyChild, Printed, Names;
  }

  lemma SeveralNext(base: Entry, path: string, b: nat, p: Path, orders: seq<seq<string>>, done: seq<string>) returns (n: nat)
    requires SeveralAhead(base, path, b, p, orders, done)
    ensures p != [] && orders != []
    ensures if |p[0].keys| > 1 then SchemaOf(base, path) == None
            else SeveralAhead(base, path, n, p[1..], orders[1..], done + [p[0].name])
  {
    hide *;
    SeveralParts(base, path, b, p, orders, done);
    HeadOrTail(p);
    FirstOrder(p, orders);
    n := b + 1 + |PrintElem(p[0], orders[0])|;
    NextElem(path, b, p, orders, done);
    if |p[0].keys| > 1 {
      NoEmptyHere(base, done, p[0].name, Names(p[1..]));
      SeveralHere(base, path, b + 1, p[0], orders[0], done);
    } else {
      ScanElem(path, b + 1, p[0], orders[0], done);
      SeveralParts(base, path, n, p[1..], orders[1..], done + [p[0].name]);
    }
  }

  lemma {:induction false} SeveralElems(base: Entry, path: string, b: nat, p: Path, orders: seq<seq<string>>, done: seq<string>)
    requires SeveralAhead(base, path, b, p, orders, done)
    ensures SchemaOf(base, path) == None
    decreases |p|
  {
    hide *;
    var n := SeveralNext(base, path, b, p, orders, done);
    if |p[0].keys| <= 1 {
      SeveralElems(base, path, n, p[1..], orders[1..], done + [p[0].name]);
    }
  }

  lemma NoEmptyHere(base: Entry, done: seq<string>, name: string, more: seq<string>)
    requires NoEmptyChild(base, done + [name] + more)
    ensures Descend(base, done + [name] + [""]).None?
  {
    assert (done + [name] + more)[..|done| + 1] == done + [name];
  }

  /** The text of a path with several keys in some element is never resolved, although its elements may
      lead to a node. */
  lemma SeveralKeysNotFound(base: Entry, p: Path, orders: seq<seq<string>>)
    requires AreOrders(orders, p) && AllKeyed(p) && HasSeveral(p)
    requires NoEmptyChild(base, Names(p))
    ensures SchemaOf(base, Printed(p, orders)) == None
  {
    var path := Printed(p, orders);
    assert path[0..] == path && [] + Names(p) == Names(p);
    PrintedCons(p, orders);
    SeveralElems(base, path, 0, p, orders, []);
  }

  /** So the scanner agrees with the structured lookup exactly on the paths with at most one key an element,
      and on those that lead nowhere. */
  lemma ScannerExact(base: Entry, p: Path, orders: seq<seq<string>>)
    requires AreOrders(orders, p) && AllKeyed(p)
    requires NoEmptyChild(base, Names(p))
    ensures SchemaOf(base, Printed(p, orders)) == Descend(base, Names(p))
            <==> (forall e :: e in p ==> |e.keys| <= 1) || Descend(base, Names(p)).None?
  {
    if forall e :: e in p ==> |e.keys| <= 1 {
      ScannerRefinesLookup(base, p, orders);
    } else {
      SeveralKeysNotFound(base, p, orders);
    }
  }

  lemma EmptyName(path: string, n: nat, done: seq<string>)
    requires 1 <= n < |path| && ScanTo(path, n) == Scan(n, 0, done) && path[n] == '[' && path[n - 1] == ']'
    ensures ScanTo(path, n + 1).names == done + [""]
  {
    assert path[n..n] == "";
  }
}
