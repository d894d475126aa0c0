/** utilities/xpath: gNMI paths, their text, and the way back.
    The text of a path is what ToXPath prints; ToGNMIPath reads it. */
module PathText {
  import opened Text
  import opened XPath
  import opened KeyValues

  /** gnmipb.PathElem. A missing Key and an empty one are the same here. */
  datatype Elem = Elem(name: string, keys: map<string, string>)

  /** The Elem field of gnmipb.Path. */
  type Path = seq<Elem>

  // ---------------------------------------------------------------- reading

  /** parseElement. */
  function ParseElement(elem: string): Result<seq<Part>> {
    var i := IndexOf(elem, '[');
    if i == |elem| then
      if IsIdentifier(elem) || elem == "." || elem == ".." || 0 < IndexOf(elem, '=') < |elem| then
        Ok([Name(elem)])
      else Err
    else if !IsIdentifier(elem[..i]) then Err
    else
      var pairs := Pairs(elem[i..]);
      if pairs.Err? then Err else Ok([Name(elem[..i]), Keys(pairs.value)])
  }

  function Append<T>(a: Result<seq<T>>, b: Result<seq<T>>): Result<seq<T>> {
    if a.Err? || b.Err? then Err else Ok(a.value + b.value)
  }

  function ParseElements(pieces: seq<string>): Result<seq<Part>> {
    if pieces == [] then Ok([])
    else Append(ParseElements(Init(pieces)), ParseElement(Last(pieces)))
  }

  /** ParseStringPath, as a function of the text. */
  function Parts(text: string): Result<seq<Part>> {
    if Split(text).Err? then Err else ParseElements(Split(text).value)
  }

  lemma {:induction false} ParseErrStays(pieces: seq<string>, n: nat)
    requires n <= |pieces| && ParseElements(pieces[..n]).Err?
    ensures ParseElements(pieces).Err?
    decreases |pieces| - n
  {
    if n < |pieces| {
      assert Init(pieces[..n + 1]) == pieces[..n];
      ParseErrStays(pieces, n + 1);
    } else {
      assert pieces[..n] == pieces;
    }
  }

  method ParseStringPath(stringPath: string) returns (r: Result<seq<Part>>)
    ensures r == Parts(stringPath)
  {
    var elems := SplitPath(stringPath);
    if elems.Err? {
      return Err;
    }
    var path: seq<Part> := [];
    for i := 0 to |elems.value|
      invariant ParseElements(elems.value[..i]) == Ok(path)
    {
      var parts := ParseElement(elems.value[i]);
      assert Init(elems.value[..i + 1]) == elems.value[..i];
      if parts.Err? {
        ParseErrStays(elems.value, i + 1);
        return Err;
      }
      path := path + parts.value;
    }
    assert elems.value[..|elems.value|] == elems.value;
    return Ok(path);
  }

  /** Names become elements; pairs go to the element just before. */
  function AddPart(path: Path, part: Part): Result<Path> {
    match part
    case Name(name) => Ok(path + [Elem(name, map[])])
    case Keys(pairs) =>
      if path == [] || Last(path).keys != map[] then Err
      else Ok(Init(path) + [Last(path).(keys := pairs)])
  }

  function Assemble(parts: seq<Part>): Result<Path> {
    if parts == [] then Ok([])
    else
      var path := Assemble(Init(parts));
      if path.Err? then Err else AddPart(path.value, Last(parts))
  }

  /** ToGNMIPath, as a function of the text. */
  function PathOf(text: string): Result<Path> {
    if Parts(text).Err? then Err else Assemble(Parts(text).value)
  }

  lemma {:induction false} AssembleErrStays(parts: seq<Part>, n: nat)
    requires n <= |parts| && Assemble(parts[..n]).Err?
    ensures Assemble(parts).Err?
    decreases |parts| - n
  {
    if n < |parts| {
      assert Init(parts[..n + 1]) == parts[..n];
      AssembleErrStays(parts, n + 1);
    } else {
      assert parts[..n] == parts;
    }
  }

  lemma AssembleSnoc(parts: seq<Part>, part: Part)
    ensures Assemble(parts + [part]) ==
            if Assemble(parts).Err? then Err else AddPart(Assemble(parts).value, part)
  {
    assert Init(parts + [part]) == parts;
  }

  lemma PathOfIs(text: string)
    ensures PathOf(text) == if Parts(text).Err? then Err else Assemble(Parts(text).value)
  {
  }

  lemma NothingRead()
    ensures ParseElements([]) == Ok([]) && Assemble([]) == Ok([])
  {
  }

  method ToGNMIPath(xpath: string) returns (r: Result<Path>)
    ensures r == PathOf(xpath)
  {
    hide Assemble, Parts, PathOf;
    PathOfIs(xpath);
    NothingRead();
    var xpathElements := ParseStringPath(xpath);
    if xpathElements.Err? {
      return Err;
    }
    var parts := xpathElements.value;
    var pbPathElements: Path := [];
    assert parts[..0] == [];
    for i := 0 to |parts|
      invariant Assemble(parts[..i]) == Ok(pbPathElements)
    {
      assert parts[..i + 1] == parts[..i] + [parts[i]];
      AssembleSnoc(parts[..i], parts[i]);
      match parts[i] {
        case Name(name) =>
          pbPathElements := pbPathElements + [Elem(name, map[])];
        case Keys(pairs) =>
          var n := |pbPathElements|;
          if n == 0 || pbPathElements[n - 1].keys != map[] {
            AssembleErrStays(parts, i + 1);
            return Err;
          }
          pbPathElements := pbPathElements[..n - 1] + [pbPathElements[n - 1].(keys := pairs)];
      }

    }
    assert parts[..|parts|] == parts;
    return Ok(pbPathElements);
  }

  function NamesIn(parts: seq<Part>): seq<string> {
    if parts == [] then []
    else NamesIn(Init(parts)) + (if Last(parts).Name? then [Last(parts).name] else [])
  }

  /** ToSchemaPath, as a function of the text. */
  function SchemaPathOf(xpath: string): Result<string> {
    if Parts(xpath).Err? then Err else Ok(Slashed(NamesIn(Parts(xpath).value)))
  }

  method ToSchemaPath(xpath: string) returns (r: Result<string>)
    ensures r == SchemaPathOf(xpath)
  {
    var xpathElements := ParseStringPath(xpath);
    if xpathElements.Err? {
      return Err;
    }
    var parts := xpathElements.value;
    var schemaElements := [""];
    for i := 0 to |parts|
      invariant schemaElements == [""] + NamesIn(parts[..i])
    {
      assert Init(parts[..i + 1]) == parts[..i];
      match parts[i] {
        case Name(name) =>
          schemaElements := schemaElements + [name];
        case Keys(pairs) =>
      }
    }
    assert parts[..|parts|] == parts;
    SlashedIsJoin(NamesIn(parts));
    return Ok(Join(schemaElements, "/"));
  }

  // ---------------------------------------------------------------- printing

  /** The order in which a walk over the map meets its keys. */
  ghost predicate IsOrder(order: seq<string>, keys: map<string, string>) {
    && (forall k :: k in order <==> k in keys)
    && forall i, j :: 0 <= i < j < |order| ==> order[i] != order[j]
  }

  function PrintElem(e: Elem, order: seq<string>): string
    requires forall k :: k in order ==> k in e.keys
  {
    e.name + PrintPairs(order, e.keys)
  }

  ghost predicate AreOrders(orders: seq<seq<string>>, p: Path) {
    |orders| == |p| && forall i :: 0 <= i < |p| ==> IsOrder(orders[i], p[i].keys)
  }

  /** The text of p when the keys of p[i] are met in the order orders[i]. */
  ghost function PrintedElems(p: Path, orders: seq<seq<string>>): seq<string>
    requires AreOrders(orders, p)
  {
    seq(|p|, i requires 0 <= i < |p| => PrintElem(p[i], orders[i]))
  }

  ghost function Printed(p: Path, orders: seq<seq<string>>): string
    requires AreOrders(orders, p)
  {
    Slashed(PrintedElems(p, orders))
  }

  lemma {:induction false} PrintPairsSnoc(keys: seq<string>, k: string, raws: map<string, string>)
    requires (forall x :: x in keys ==> x in raws) && k in raws
    ensures PrintPairs(keys + [k], raws) == PrintPairs(keys, raws) + PairText(k, raws[k])
  {
    if keys == [] {
      assert [] + [k] == [k];
    } else {
      PrintPairsSnoc(keys[1..], k, raws);
      assert (keys + [k])[1..] == keys[1..] + [k];
    }
  }

  lemma {:induction false} JoinSnoc(parts: seq<string>, last: string)
    requires parts != []
    ensures Join(parts + [last], "") == Join(parts, "") + last
  {
    if |parts| > 1 {
      assert (parts + [last])[1..] == parts[1..] + [last];
      JoinSnoc(parts[1..], last);
    } else {
      assert (parts + [last])[1..] == [last];
    }
  }

  /** One element as ToXPath prints it; the map is met in some order. */
  method ToXPathElem(e: Elem) returns (text: string, ghost order: seq<string>)
    ensures IsOrder(order, e.keys) && text == PrintElem(e, order)
  {
    var ke := [e.name];
    var left := e.keys.Keys;
    order := [];
    while left != {}
      invariant left <= e.keys.Keys && ke != []
      invariant forall k :: k in order <==> k in e.keys.Keys - left
      invariant forall i, j :: 0 <= i < j < |order| ==> order[i] != order[j]
      invariant Join(ke, "") == PrintElem(e, order)
      decreases left
    {
      var k :| k in left;
      JoinSnoc(ke, PairText(k, e.keys[k]));
      PrintPairsSnoc(order, k, e.keys);
      ConcatAssoc(e.name, PrintPairs(order, e.keys), PairText(k, e.keys[k]));
      ke := ke + [PairText(k, e.keys[k])];
      assert k !in order;
      ghost var before := order;
      order := order + [k];
      left := left - {k};
      forall x
        ensures x in order <==> x in e.keys.Keys - left
      {
        assert x in order <==> x in before || x == k;
      }
    }
    text := Join(ke, "");
  }

  lemma PrintedSnoc(p: Path, orders: seq<seq<string>>, e: Elem, order: seq<string>)
    requires AreOrders(orders, p) && IsOrder(order, e.keys)
    ensures AreOrders(orders + [order], p + [e])
    ensures PrintedElems(p + [e], orders + [order]) == PrintedElems(p, orders) + [PrintElem(e, order)]
  {
  }

  method ToXPath(p: Path) returns (text: string, ghost orders: seq<seq<string>>)
    ensures AreOrders(orders, p) && text == Printed(p, orders)
    ensures exists met :: AreOrders(met, p) && text == Printed(p, met)
  {
    var pe := [""];
    orders := [];
    for i := 0 to |p|
      invariant AreOrders(orders, p[..i])
      invariant pe == [""] + PrintedElems(p[..i], orders)
    {
      var ke, order := ToXPathElem(p[i]);
      assert p[..i + 1] == p[..i] + [p[i]];
      PrintedSnoc(p[..i], orders, p[i], order);
      pe := pe + [ke];
      orders := orders + [order];
    }
    assert p[..|p|] == p;
    SlashedIsJoin(PrintedElems(p, orders));
    text := Join(pe, "/");
  }

  // ---------------------------------------------------------------- printing, then reading

  lemma {:induction false} InsideQuiet(a: string, w: string)
    requires Quiet(w)
    ensures Inside(a + w) == Inside(a)
  {
    if w == "" {
      assert a + w == a;
    } else {
      assert Init(a + w) == a + Init(w);
      InsideQuiet(a, Init(w));
    }
  }

  lemma InsideSnoc(a: string, c: char)
    ensures Inside(a + [c]) == if IsBracket(c) && !Escapes(a) then c == '[' else Inside(a)
  {
    assert Init(a + [c]) == a;
  }

  /** A pair printed after a piece makes a longer piece. */
  lemma PieceGrows(a: string, key: string, raw: string)
    requires IsPiece(a) && !Escapes(a) && IsIdentifier(key) && IsRawValue(raw)
    ensures IsPiece(a + PairText(key, raw)) && !Escapes(a + PairText(key, raw))
  {
    IdentifierQuiet(key);
    hide IsIdentifier, IsPiece;
    var inner := key + "=" + raw;
    QuietConcat(key + "=", raw);
    assert Last(inner) == Last(raw);
    assert a + PairText(key, raw) == a + ['['] + inner + [']'];
    hide Quiet, PairText;
    BracketsGrow(a, inner);
  }

  lemma BracketsGrow(a: string, inner: string)
    requires IsPiece(a) && !Escapes(a) && Quiet(inner) && !Escapes(inner) && inner != ""
    ensures IsPiece(a + ['['] + inner + [']']) && !Escapes(a + ['['] + inner + [']'])
  {
    var start := a + ['['];
    InsideSnoc(a, '[');
    InsideQuiet(start, inner);
    InsideSnoc(start + inner, ']');
    var s := start + inner + [']'];
    hide Inside;
    forall k | 0 <= k < |s| && s[k] == '/'
      ensures Inside(s[..k])
    {
      if k < |a| {
        assert s[..k] == a[..k] && s[k] == a[k];
      } else {
        var m := k - |a| - 1;
        assert s[..k] == start + inner[..m];
        QuietPrefix(inner, m);
        InsideQuiet(start, inner[..m]);
      }
    }
  }

  lemma QuietPrefix(w: string, m: nat)
    requires m <= |w| && Quiet(w)
    ensures Quiet(w[..m])
  {
  }

  lemma {:induction false} PrintedPiece(name: string, order: seq<string>, raws: map<string, string>)
    requires IsIdentifier(name)
    requires forall k :: k in order ==> k in raws && IsIdentifier(k) && IsRawValue(raws[k])
    ensures IsPiece(name + PrintPairs(order, raws)) && !Escapes(name + PrintPairs(order, raws))
  {
    if order == [] {
      NamePiece(name);
      assert name + PrintPairs(order, raws) == name;
    } else {
      var front, k := Init(order), Last(order);
      PrintedPiece(name, front, raws);
      hide IsPiece, IsIdentifier, IsRawValue, Escapes;
      PieceGrows(name + PrintPairs(front, raws), k, raws[k]);
      assert order == front + [k];
      PrintPairsSnoc(front, k, raws);
      ConcatAssoc(name, PrintPairs(front, raws), PairText(k, raws[k]));
    }
  }

  lemma NamePiece(name: string)
    requires IsIdentifier(name)
    ensures IsPiece(name) && !Escapes(name)
  {
    hide IsIdentifier, Inside;
    IdentifierQuiet(name);
    NothingCut();
    assert "" + name == name;
    InsideQuiet("", name);
    assert '\\' !in name ==> !Escapes(name);
  }

  /** Names and key names are identifiers, and values print as text that can be read. */
  predicate IsReadable(e: Elem) {
    && IsIdentifier(e.name)
    && forall k :: k in e.keys ==> IsIdentifier(k) && IsRawValue(e.keys[k])
  }

  function UnescapeElem(e: Elem): Elem {
    Elem(e.name, map k | k in e.keys :: Unescape(e.keys[k]))
  }

  function UnescapePath(p: Path): Path {
    seq(|p|, i requires 0 <= i < |p| => UnescapeElem(p[i]))
  }

  function PartsOf(e: Elem): seq<Part> {
    if e.keys == map[] then [Name(e.name)] else [Name(e.name), Keys(e.keys)]
  }

  lemma NameParts(name: string)
    requires IsIdentifier(name)
    ensures ParseElement(name) == Ok([Name(name)])
  {
    IdentifierQuiet(name);
  }

  lemma PairsParts(name: string, pairs: string)
    requires IsIdentifier(name) && pairs != "" && pairs[0] == '['
    ensures ParseElement(name + pairs) == if Pairs(pairs).Err? then Err else Ok([Name(name), Keys(Pairs(pairs).value)])
  {
    hide Pairs, IsIdentifier;
    IdentifierQuiet(name);
    ListParts(name, pairs);
  }

  lemma PrintedElemParses(e: Elem, order: seq<string>)
    requires IsReadable(e) && IsOrder(order, e.keys)
    ensures ParseElement(PrintElem(e, order)) == Ok(PartsOf(UnescapeElem(e)))
    ensures IsPiece(PrintElem(e, order))
  {
    hide Pairs, IsIdentifier, IsPiece, ParseElement, IsRawValue;
    PrintedPiece(e.name, order, e.keys);
    if order == [] {
      NoKeys(e, order);
      assert PrintElem(e, order) == e.name;
      NameParts(e.name);
    } else {
      assert order[0] in e.keys;
      PrintedKeysParse(e, order);
      PairsParts(e.name, PrintPairs(order, e.keys));
    }
  }

  lemma PrintedKeysParse(e: Elem, order: seq<string>)
    requires IsReadable(e) && IsOrder(order, e.keys) && order != []
    ensures var pairs := PrintPairs(order, e.keys);
            pairs != "" && pairs[0] == '[' && Pairs(pairs) == Ok(UnescapeElem(e).keys)
    ensures UnescapeElem(e).keys != map[]
  {
    var pairs := PrintPairs(order, e.keys);
    assert pairs[0..] == pairs;
    ReadPairs(pairs, 0, order, e.keys);
    hide PairsFrom, IsIdentifier;
    assert order[0] in e.keys && order[0] in UnescapeElem(e).keys;
    assert UnescapeAll(order, e.keys) == UnescapeElem(e).keys;
  }

  lemma NoKeys(e: Elem, order: seq<string>)
    requires IsOrder(order, e.keys) && order == []
    ensures e.keys == map[] && UnescapeElem(e).keys == map[]
  {
    assert forall k :: k in e.keys ==> k in order;
  }

  function AllParts(p: Path): seq<Part> {
    if p == [] then [] else AllParts(Init(p)) + PartsOf(Last(p))
  }

  lemma AssembleElem(parts: seq<Part>, path: Path, e: Elem)
    requires Assemble(parts) == Ok(path)
    ensures Assemble(parts + PartsOf(e)) == Ok(path + [e])
  {
    var bare := Elem(e.name, map[]);
    AssembleSnoc(parts, Name(e.name));
    if e.keys == map[] {
      assert bare == e;
    } else {
      AssembleSnoc(parts + [Name(e.name)], Keys(e.keys));
      hide Assemble;
      assert Init(path + [bare]) == path && bare.(keys := e.keys) == e;
      assert parts + PartsOf(e) == parts + [Name(e.name)] + [Keys(e.keys)];
    }
  }

  lemma {:induction false} AssembleAll(p: Path)
    ensures Assemble(AllParts(p)) == Ok(p)
  {
    if p != [] {
      AssembleAll(Init(p));
      hide Assemble, PartsOf;
      AssembleElem(AllParts(Init(p)), Init(p), Last(p));
      InitLast(p);
    }
  }

  lemma ParseSnoc(pieces: seq<string>, piece: string)
    ensures ParseElements(pieces + [piece]) == Append(ParseElements(pieces), ParseElement(piece))
  {
    assert Init(pieces + [piece]) == pieces;
  }

  lemma {:induction false} PrintedPartsParse(p: Path, orders: seq<seq<string>>)
    requires AreOrders(orders, p) && forall e :: e in p ==> IsReadable(e)
    ensures ParseElements(PrintedElems(p, orders)) == Ok(AllParts(UnescapePath(p)))
    ensures forall w :: w in PrintedElems(p, orders) ==> IsPiece(w)
  {
    if p != [] {
      var front, order := Init(p), Last(orders);
      assert p == front + [Last(p)] && orders == Init(orders) + [order];
      PrintedPartsParse(front, Init(orders));
      PrintedSnoc(front, Init(orders), Last(p), order);
      PrintedElemParses(Last(p), order);
      ParseSnoc(PrintedElems(front, Init(orders)), PrintElem(Last(p), order));
      hide ParseElement, ParseElements, IsPiece, IsReadable, PrintElem, PartsOf, UnescapeElem;
      assert Init(UnescapePath(p)) == UnescapePath(front);
    } else {
      assert PrintedElems(p, orders) == [] && UnescapePath(p) == [];
    }
  }

  /** Printed text is read back, with the escapes of its values undone,
      in whatever order the keys of an element are printed. */
  lemma PrintedReads(p: Path, orders: seq<seq<string>>)
    requires AreOrders(orders, p) && forall e :: e in p ==> IsReadable(e)
    ensures PathOf(Printed(p, orders)) == Ok(UnescapePath(p))
  {
    PrintedPartsParse(p, orders);
    SplitSlashed(PrintedElems(p, orders));
    AssembleAll(UnescapePath(p));
  }

  /** Identifiers, and values that are not empty, hold no bracket and do not end in a backslash. */
  predicate IsPlain(e: Elem) {
    && IsIdentifier(e.name)
    && forall k :: k in e.keys ==>
         IsIdentifier(k) && e.keys[k] != "" && BracketFree(e.keys[k]) && !Escapes(e.keys[k])
  }

  /** Print, then parse: exactly the elements of the path come back. */
  lemma PrintThenParse(p: Path, orders: seq<seq<string>>)
    requires AreOrders(orders, p) && forall e :: e in p ==> IsPlain(e)
    ensures PathOf(Printed(p, orders)) == Ok(p)
  {
    forall i | 0 <= i < |p|
      ensures IsReadable(p[i]) && UnescapeElem(p[i]) == p[i]
    {
      assert p[i] in p;
      forall k | k in p[i].keys
        ensures IsRawValue(p[i].keys[k]) && Unescape(p[i].keys[k]) == p[i].keys[k]
      {
        UnescapeShrinks(p[i].keys[k]);
      }
    }
    PrintedReads(p, orders);
    assert UnescapePath(p) == p;
  }

  function EscapeElem(e: Elem): Elem {
    Elem(e.name, map k | k in e.keys :: Escape(e.keys[k]))
  }

  function EscapePath(p: Path): Path {
    seq(|p|, i requires 0 <= i < |p| => EscapeElem(p[i]))
  }

  predicate IsEscapable(e: Elem) {
    && IsIdentifier(e.name)
    && forall k :: k in e.keys ==> IsIdentifier(k) && e.keys[k] != "" && !Escapes(e.keys[k])
  }

  /** With the brackets of its values escaped first, every path comes back whose names are
      identifiers and whose values are not empty and do not end in a backslash. */
  lemma EscapePrintParse(p: Path, orders: seq<seq<string>>)
    requires AreOrders(orders, EscapePath(p)) && forall e :: e in p ==> IsEscapable(e)
    ensures PathOf(Printed(EscapePath(p), orders)) == Ok(p)
  {
    forall i | 0 <= i < |p|
      ensures IsReadable(EscapePath(p)[i]) && UnescapeElem(EscapePath(p)[i]) == p[i]
    {
      assert p[i] in p;
      forall k | k in p[i].keys
        ensures IsRawValue(Escape(p[i].keys[k])) && Unescape(Escape(p[i].keys[k])) == p[i].keys[k]
      {
        EscapeQuiet(p[i].keys[k]);
        UnescapeEscape(p[i].keys[k]);
      }
    }
    PrintedReads(EscapePath(p), orders);
    assert UnescapePath(EscapePath(p)) == p;
  }

  // ---------------------------------------------------------------- which names are read

  /** [a-zA-Z0-9_][a-zA-Z0-9_.-]*, spelled out. */
  predicate MatchesIdPattern(s: string) {
    && s != ""
    && ('a' <= s[0] <= 'z' || 'A' <= s[0] <= 'Z' || '0' <= s[0] <= '9' || s[0] == '_')
    && forall i :: 0 < i < |s| ==>
         'a' <= s[i] <= 'z' || 'A' <= s[i] <= 'Z' || '0' <= s[i] <= '9' || s[i] == '_' || s[i] == '-' || s[i] == '.'
  }

  lemma PatternIs(s: string)
    ensures IsIdentifier(s) <==> MatchesIdPattern(s)
  {
    if MatchesIdPattern(s) {
      forall c | c in s
        ensures IsIdentifierChar(c)
      {
        var i :| 0 <= i < |s| && s[i] == c;
      }
    }
    if IsIdentifier(s) {
      assert forall i :: 0 <= i < |s| ==> s[i] in s;
    }
  }

  /** Which text without slashes and opening brackets is a name: what matches the pattern, a dot or two, and everything
      with an equals sign that does not come first. */
  lemma NameExact(name: string)
    requires name != "" && '/' !in name && '[' !in name
    ensures PathOf("/" + name) == if MatchesIdPattern(name) || name == "." || name == ".." || ('=' in name && name[0] != '=')
                                  then Ok([Elem(name, map[])]) else Err
  {
    hide *;
    PatternIs(name);
    ElementNamed(name);
    NeverInside(name);
    PieceIf(name);
    OnePiece(name);
    ReadOne(name, Elem(name, map[]));
  }

  lemma ElementNamed(name: string)
    requires name != "" && '[' !in name
    ensures ParseElement(name) == if IsIdentifier(name) || name == "." || name == ".." || ('=' in name && name[0] != '=')
                                  then Ok(PartsOf(Elem(name, map[]))) else Err
  {
    hide Pairs, IsIdentifier;
    assert IndexOf(name, '[') == |name|;
    var i := IndexOf(name, '=');
    assert '=' in name ==> i < |name|;
    if i > 0 {
      assert name[..i][0] == name[0] && name[0] in name[..i];
    }
  }

  lemma {:induction false} NeverInside(s: string)
    requires '[' !in s
    ensures !Inside(s)
    decreases |s|
  {
    if s != "" {
      NeverInside(Init(s));
    }
  }

  lemma PieceIf(w: string)
    requires w != "" && '/' !in w && !Inside(w)
    ensures IsPiece(w)
  {
    hide Inside;
  }

  lemma OnePiece(w: string)
    requires IsPiece(w)
    ensures Slashed([w]) == "/" + w && Split("/" + w) == Ok([w])
  {
    hide *;
    SlashedOne(w);
    SplitSlashed([w]);
  }

  lemma SlashedOne(w: string)
    ensures Slashed([w]) == "/" + w
  {
    assert [w][1..] == [];
  }

  /** A text of one piece is read as that piece is. */
  lemma ReadOne(w: string, e: Elem)
    requires Split("/" + w) == Ok([w]) && (ParseElement(w) == Err || ParseElement(w) == Ok(PartsOf(e)))
    ensures PathOf("/" + w) == if ParseElement(w).Err? then Err else Ok([e])
  {
    hide *;
    PartsIs("/" + w, [w]);
    PathOfIs("/" + w);
    ParseSnoc([], w);
    NothingRead();
    AppendIs(Ok([]), ParseElement(w));
    AssembleElem([], [], e);
    assert [] + [w] == [w] && [] + PartsOf(e) == PartsOf(e) && [] + [e] == [e];
  }

  lemma PartsIs(text: string, pieces: seq<string>)
    requires Split(text) == Ok(pieces)
    ensures Parts(text) == ParseElements(pieces)
  {
  }

  lemma AppendIs(a: Result<seq<Part>>, b: Result<seq<Part>>)
    ensures Append(a, b) == if a.Err? || b.Err? then Err else Ok(a.value + b.value)
  {
  }

  /** A list element with one key and a plain value is read exactly when its name and its key match the pattern. */
  lemma ListNameExact(name: string, key: string, v: string)
    requires BracketFree(name) && '/' !in name && '\\' !in name && BracketFree(key) && '/' !in key && '=' !in key
    requires v != "" && BracketFree(v) && !Escapes(v)
    ensures PathOf("/" + name + "[" + key + "=" + v + "]")
            == if MatchesIdPattern(name) && MatchesIdPattern(key) then Ok([Elem(name, map[key := v])]) else Err
  {
    hide *;
    PatternIs(name);
    PatternIs(key);
    var w, e := name + PairText(key, v), Elem(name, map[key := v]);
    PairTextIs(name, key, v);
    ListPiece(name, key, v);
    OnePiece(w);
    PlainPairRead(key, v);
    ListParts(name, PairText(key, v));
    KeyedPartsOf(e, key);
    ReadOne(w, e);
  }

  lemma PairTextIs(name: string, key: string, v: string)
    ensures "/" + name + "[" + key + "=" + v + "]" == "/" + (name + PairText(key, v))
    ensures PairText(key, v) != "" && PairText(key, v)[0] == '['
  {
  }

  lemma ListPiece(name: string, key: string, v: string)
    requires BracketFree(name) && '/' !in name && '\\' !in name && BracketFree(key)
    requires v != "" && BracketFree(v) && !Escapes(v)
    ensures IsPiece(name + PairText(key, v))
  {
    var inner := key + "=" + v;
    NeverInside(name);
    assert !Escapes(name) && Quiet(inner) && Last(inner) == Last(v);
    assert name + PairText(key, v) == name + ['['] + inner + [']'];
    hide Inside, PairText, Quiet;
    OneBracket(name, inner);
  }

  lemma OneBracket(name: string, inner: string)
    requires '/' !in name && !Inside(name) && !Escapes(name) && Quiet(inner) && inner != "" && !Escapes(inner)
    ensures IsPiece(name + ['['] + inner + [']'])
  {
    var start := name + ['['];
    var s := start + inner + [']'];
    hide Inside;
    InsideSnoc(name, '[');
    InsideQuiet(start, inner);
    InsideSnoc(start + inner, ']');
    forall k | 0 <= k < |s| && s[k] == '/'
      ensures Inside(s[..k])
    {
      var m := BehindStart(name, inner, k);
      QuietPrefix(inner, m);
      InsideQuiet(start, inner[..m]);
    }
  }

  /** A slash behind the name is in the pair. */
  lemma BehindStart(name: string, inner: string, k: nat) returns (m: nat)
    requires '/' !in name && k < |name + ['['] + inner + [']']| && (name + ['['] + inner + [']'])[k] == '/'
    ensures m <= |inner| && (name + ['['] + inner + [']'])[..k] == name + ['['] + inner[..m]
  {
    var s := name + ['['] + inner + [']'];
    assert forall j :: 0 <= j < |name| ==> s[j] == name[j] && name[j] in name;
    assert s[|name|] == '[';
    m := k - |name| - 1;
    assert s[..k] == name + ['['] + inner[..m];
  }

  /** A pair with a plain value is read exactly when its key is an identifier. */
  lemma PlainPairRead(key: string, v: string)
    requires BracketFree(key) && '=' !in key && v != "" && BracketFree(v) && !Escapes(v)
    ensures Pairs(PairText(key, v)) == if IsIdentifier(key) then Ok(map[key := v]) else Err
  {
    hide *;
    if IsIdentifier(key) {
      PlainNests(v);
      RawValueExact(key, v);
    } else {
      var s := PairText(key, v);
      ClosesAtEnd(key, v);
      PairMeaning(key, v);
      PairLong(key, v);
      assert s[0..|s|] == s;
      PairsFromIs(s, 0);
      PairsAre(s);
    }
  }

  lemma PairLong(key: string, v: string)
    ensures |PairText(key, v)| >= 3
  {
  }

  lemma {:induction false} FlatDepth(v: string, k: nat)
    requires BracketFree(v) && k <= |v|
    ensures Depth(v, 0, k) == 0
  {
    if k > 0 {
      FlatDepth(v, k - 1);
    }
  }

  lemma PlainNests(v: string)
    requires BracketFree(v)
    ensures Nests(v)
  {
    forall k | 0 <= k <= |v|
      ensures Depth(v, 0, k) == 0
    {
      FlatDepth(v, k);
    }
  }

  lemma ClosesAtEnd(key: string, v: string)
    requires BracketFree(key) && BracketFree(v)
    ensures FindClose(PairText(key, v), 0, 0) >= |PairText(key, v)| - 1
  {
    var s := PairText(key, v);
    assert s == "[" + (key + "=" + v) + "]";
    hide PairText;
    forall k | 0 <= k < |s| - 1
      ensures !ClosesAt(s, 0, k)
    {
      assert k > 0 ==> s[k] == (key + "=" + v)[k - 1];
    }
  }

  lemma ListParts(name: string, pairs: string)
    requires BracketFree(name) && pairs != "" && pairs[0] == '['
    ensures ParseElement(name + pairs)
            == if !IsIdentifier(name) || Pairs(pairs).Err? then Err else Ok([Name(name), Keys(Pairs(pairs).value)])
  {
    hide Pairs, IsIdentifier;
    assert name + pairs == name + ['['] + pairs[1..];
    IndexOfUnique(name, '[', pairs[1..]);
    assert (name + pairs)[|name|..] == pairs && (name + pairs)[..|name|] == name;
  }

  lemma KeyedPartsOf(e: Elem, key: string)
    requires key in e.keys
    ensures PartsOf(e) == [Name(e.name), Keys(e.keys)]
  {
  }
}
