/** When a path that ToXPath prints is read back by ToGNMIPath: exactly when. The printer does not escape, so a bracket
    in a value can end the pair too early and a slash after a closing bracket cuts the element in two. */
module PrintExact {
  import opened Text
  import opened XPath
  import opened KeyValues
  import opened PathText

  /** No '/' in v comes after a ']' that no '[' has reopened. */
  predicate SlashesEnclosed(v: string) {
    forall k :: 0 <= k < |v| && v[k] == '/' ==> Inside("[" + v[..k])
  }

  lemma {:induction false} SameInside(a: string, b: string, w: string)
    requires Inside(a) == Inside(b) && Escapes(a) == Escapes(b)
    ensures Inside(a + w) == Inside(b + w)
  {
    if w == "" {
      assert a + w == a && b + w == b;
    } else {
      SameInside(a, b, Init(w));
      SameEscapes(a, b, Init(w));
      InsideSnoc(a + Init(w), Last(w));
      InsideSnoc(b + Init(w), Last(w));
      assert a + w == a + Init(w) + [Last(w)] && b + w == b + Init(w) + [Last(w)];
    }
  }

  lemma SameEscapes(a: string, b: string, w: string)
    requires Escapes(a) == Escapes(b)
    ensures Escapes(a + w) == Escapes(b + w)
  {
    if w != "" {
      assert Last(a + w) == Last(w) && Last(b + w) == Last(w);
    } else {
      assert a + w == a && b + w == b;
    }
  }

  /** A value prints so that it can be read back. */
  predicate PrintsBack(v: string) {
    v != "" && !Escapes(v) && Nests(v) && SlashesEnclosed(v)
  }

  /** Where a value is printed, the splitter is in the state that a lone '[' leaves it in. */
  lemma InsideValue(a: string, key: string, v: string, m: nat)
    requires !Escapes(a) && IsIdentifier(key) && m <= |v|
    ensures Inside(a + ['['] + (key + "=") + v[..m]) == Inside("[" + v[..m])
  {
    hide Inside, IsIdentifier;
    var head := a + ['['] + (key + "=");
    IdentifierQuiet(key);
    assert Last(head) == '=' && Quiet(key + "=");
    InsideSnoc(a, '[');
    InsideQuiet(a + ['['], key + "=");
    LoneOpening();
    SameInside(head, "[", v[..m]);
  }

  lemma LoneOpening()
    ensures Inside("[") && !Escapes("[")
  {
    assert Init("[") == "";
  }

  // ---------------------------------------------------------------- whole paths

  /** Names and keys are identifiers, and every value prints so that it can be read back. */
  predicate IsPrintable(e: Elem) {
    IsIdentifier(e.name) && AllPrintBack(e.keys)
  }

  predicate AllPrintBack(values: map<string, string>) {
    forall k :: k in values ==> IsIdentifier(k) && PrintsBack(values[k])
  }

  /** The text of a pair has the same depths where it stands. */
  lemma {:induction false} DepthWhereItStands(s: string, b: nat, pair: string, n: nat)
    requires b + |pair| <= |s| && s[b..b + |pair|] == pair && !EscapedAt(s, b) && n <= |pair|
    ensures Depth(s, b, b + n) == Depth(pair, 0, n)
    ensures n < |pair| ==> s[b + n] == pair[n] && EscapedAt(s, b + n) == EscapedAt(pair, n)
  {
    if n < |pair| {
      assert s[b + n] == s[b..b + |pair|][n];
    }
    if n > 0 {
      assert s[b + n - 1] == s[b..b + |pair|][n - 1];
      DepthWhereItStands(s, b, pair, n - 1);
    }
  }

  lemma ClosesWhereItStands(s: string, b: nat, pair: string)
    requires b + |pair| <= |s| && s[b..b + |pair|] == pair && !EscapedAt(s, b)
    requires pair != "" && FindClose(pair, 0, 0) == |pair| - 1
    ensures OpenPair(s, b, b + |pair| - 1) && ClosesAt(s, b, b + |pair| - 1)
  {
    hide Depth, EscapedAt;
    forall k | 0 <= k < |pair|
      ensures ClosesAt(s, b, b + k) <==> ClosesAt(pair, 0, k)
    {
      DepthWhereItStands(s, b, pair, k);
      DepthWhereItStands(s, b, pair, k + 1);
    }
    forall j | b <= j < b + |pair| - 1
      ensures !ClosesAt(s, b, j)
    {
      var k := j - b;
      assert ClosesAt(s, b, b + k) <==> ClosesAt(pair, 0, k);
    }
    var last := |pair| - 1;
    assert ClosesAt(s, b, b + last) <==> ClosesAt(pair, 0, last);
  }

  lemma ReadListedPair(s: string, b: nat, key: string, v: string)
    requires IsIdentifier(key) && PrintsBack(v)
    requires b + |PairText(key, v)| <= |s| && !EscapedAt(s, b)
    requires s[b..b + |PairText(key, v)|] == PairText(key, v)
    ensures PairsFrom(s, b) == Merge(map[key := v], PairsFrom(s, b + |PairText(key, v)|))
  {
    hide PairsFrom, IsPair, PairKey, PairValue, Unescape, IsIdentifier, Depth, FindClose, SlashesEnclosed;
    var pair := PairText(key, v);
    var n := b + |pair| - 1;
    IdentifierQuiet(key);
    UnescapeShrinks(v);
    PairParts(key, v);
    NestedClosesLast(key, v);
    ClosesWhereItStands(s, b, pair);
    assert s[b..n + 1] == pair;
    PairRead(s, b, n, map[]);
    MergeEmpty(PairsFrom(s, b));
    assert map[][key := v] == map[key := v];
  }

  function Picked(keys: seq<string>, values: map<string, string>): map<string, string>
    requires forall k :: k in keys ==> k in values
  {
    map k | k in keys :: values[k]
  }

  lemma PickedStep(keys: seq<string>, values: map<string, string>)
    requires keys != [] && forall k :: k in keys ==> k in values
    ensures Picked(keys, values) == map[keys[0] := values[keys[0]]] + Picked(keys[1..], values)
  {
    assert keys == [keys[0]] + keys[1..];
  }

  lemma NonePicked(values: map<string, string>)
    ensures Picked([], values) == map[]
  {
  }

  lemma {:induction false} ReadListedPairs(s: string, b: nat, keys: seq<string>, values: map<string, string>)
    requires AllPrintBack(values) && forall k :: k in keys ==> k in values
    requires b <= |s| && s[b..] == PrintPairs(keys, values) && !EscapedAt(s, b)
    ensures PairsFrom(s, b) == Ok(Picked(keys, values))
    decreases |keys|
  {
    hide PairsFrom, IsIdentifier, PrintsBack, PairText, Picked;
    if keys == [] {
      NoPairs(s);
      NonePicked(values);
      assert b == |s|;
    } else {
      var pair := PairText(keys[0], values[keys[0]]);
      PairEnds(keys[0], values[keys[0]]);
      SkipPrefix(s, b, pair, PrintPairs(keys[1..], values));
      ReadListedPairs(s, b + |pair|, keys[1..], values);
      ReadListedPair(s, b, keys[0], values[keys[0]]);
      PickedStep(keys, values);
    }
  }

  lemma PairEnds(key: string, v: string)
    ensures PairText(key, v) != "" && PairText(key, v)[0] == '[' && Last(PairText(key, v)) == ']'
  {
  }

  /** A pair printed after a piece makes a longer piece. */
  lemma ListedPieceGrows(a: string, key: string, v: string)
    requires IsPiece(a) && !Escapes(a) && IsIdentifier(key) && PrintsBack(v)
    ensures IsPiece(a + PairText(key, v)) && !Escapes(a + PairText(key, v))
  {
    hide Inside, IsIdentifier, Nests, IsPiece, SlashesEnclosed;
    IdentifierQuiet(key);
    PairClosed(a, key, v);
    forall m | 0 <= m <= |v|
      ensures Inside(a + ['['] + (key + "=") + v[..m]) == Inside("[" + v[..m])
    {
      InsideValue(a, key, v, m);
    }
    PairBehind(a, key, v);
    EnclosedGrows(a, key, v);
  }

  /** Behind a pair the brackets are closed. */
  lemma PairClosed(a: string, key: string, v: string)
    requires v != "" && !Escapes(v)
    ensures !Inside(a + PairText(key, v)) && !Escapes(a + PairText(key, v))
  {
    hide Inside;
    PairBehind(a, key, v);
    InsideSnoc(a + ['['] + (key + "=") + v, ']');
  }

  lemma EnclosedGrows(a: string, key: string, v: string)
    requires IsPiece(a) && SlashesEnclosed(v) && '/' !in key
    requires var head := a + ['['] + (key + "=");
             !Inside(head + v + [']']) && forall m :: 0 <= m <= |v| ==> Inside(head + v[..m]) == Inside("[" + v[..m])
    ensures IsPiece(a + PairText(key, v))
  {
    hide Inside, PairText;
    var mid := ['['] + (key + "=");
    var w := a + PairText(key, v);
    PairBehind(a, key, v);
    assert '/' !in mid;
    forall k | 0 <= k < |w| && w[k] == '/'
      ensures Inside(w[..k])
    {
      UpTo(a, mid, v, k);
    }
  }

  lemma PairBehind(a: string, key: string, v: string)
    ensures a + PairText(key, v) == a + (['['] + (key + "=")) + v + [']']
    ensures a + ['['] + (key + "=") == a + (['['] + (key + "="))
  {
  }

  lemma UpTo(a: string, mid: string, v: string, k: nat)
    requires k < |a + mid + v + [']']|
    ensures var w := a + mid + v + [']'];
            if k < |a| then w[k] == a[k] && w[..k] == a[..k]
            else if k < |a + mid| then w[k] in mid
            else if k < |a + mid + v| then
              var m := k - |a + mid|; w[k] == v[m] && w[..k] == a + mid + v[..m]
            else w[k] == ']'
  {
  }

  lemma {:induction false} PrintedListedPiece(name: string, order: seq<string>, values: map<string, string>)
    requires IsIdentifier(name) && AllPrintBack(values) && forall k :: k in order ==> k in values
    ensures IsPiece(name + PrintPairs(order, values)) && !Escapes(name + PrintPairs(order, values))
    decreases |order|
  {
    hide IsPiece, IsIdentifier, PrintsBack, Escapes, PairText;
    if order == [] {
      NamePiece(name);
      assert name + PrintPairs(order, values) == name;
    } else {
      var front, k := Init(order), Last(order);
      InitLast(order);
      assert k in values && forall x :: x in front ==> x in order;
      PrintedListedPiece(name, front, values);
      ListedPieceGrows(name + PrintPairs(front, values), k, values[k]);
      PrintPairsSnoc(front, k, values);
      ConcatAssoc(name, PrintPairs(front, values), PairText(k, values[k]));
    }
  }

  lemma PrintableElem(e: Elem, order: seq<string>)
    requires IsPrintable(e) && IsOrder(order, e.keys)
    ensures ParseElement(PrintElem(e, order)) == Ok(PartsOf(e)) && IsPiece(PrintElem(e, order))
  {
    hide AllPrintBack, IsIdentifier, IsPiece, Pairs, ParseElement;
    PrintedListedPiece(e.name, order, e.keys);
    if order == [] {
      NoKeys(e, order);
      assert PrintElem(e, order) == e.name;
      NameParts(e.name);
    } else {
      PrintableKeys(e, order);
      assert order[0] in e.keys;
      PairsParts(e.name, PrintPairs(order, e.keys));
    }
  }

  lemma PrintableKeys(e: Elem, order: seq<string>)
    requires IsPrintable(e) && IsOrder(order, e.keys) && order != []
    ensures var pairs := PrintPairs(order, e.keys);
            pairs != "" && pairs[0] == '[' && Pairs(pairs) == Ok(e.keys)
  {
    hide AllPrintBack, PairsFrom, PairText, IsIdentifier;
    var pairs := PrintPairs(order, e.keys);
    PairEnds(order[0], e.keys[order[0]]);
    assert pairs[0..] == pairs;
    ReadListedPairs(pairs, 0, order, e.keys);
    assert Picked(order, e.keys) == e.keys;
  }

  lemma {:induction false} PrintableParts(p: Path, orders: seq<seq<string>>)
    requires AreOrders(orders, p) && forall e :: e in p ==> IsPrintable(e)
    ensures ParseElements(PrintedElems(p, orders)) == Ok(AllParts(p))
    ensures forall w :: w in PrintedElems(p, orders) ==> IsPiece(w)
  {
    if p != [] {
      var front, order := Init(p), Last(orders);
      assert p == front + [Last(p)] && orders == Init(orders) + [order];
      PrintableParts(front, Init(orders));
      PrintedSnoc(front, Init(orders), Last(p), order);
      PrintableElem(Last(p), order);
      ParseSnoc(PrintedElems(front, Init(orders)), PrintElem(Last(p), order));
      hide ParseElement, ParseElements, IsPiece, IsPrintable, PrintElem, PartsOf;
    } else {
      NothingRead();
      assert PrintedElems(p, orders) == [];
    }
  }

  /** Print, then parse, without any escaping: every path comes back all whose values print back, with any number
      of keys and in whatever order they are printed. */
  lemma PrintableReads(p: Path, orders: seq<seq<string>>)
    requires AreOrders(orders, p) && forall e :: e in p ==> IsPrintable(e)
    ensures PathOf(Printed(p, orders)) == Ok(p)
  {
    hide IsPrintable, ParseElements, Assemble, IsPiece, AllParts, Split;
    PrintableParts(p, orders);
    SplitSlashed(PrintedElems(p, orders));
    AssembleAll(p);
  }

  // ---------------------------------------------------------------- what is read back was printed

  predicate Distinct(keys: seq<string>) {
    forall i, j :: 0 <= i < j < |keys| ==> keys[i] != keys[j]
  }

  lemma {:induction false} PrintSame(keys: seq<string>, a: map<string, string>, b: map<string, string>)
    requires forall k :: k in keys ==> k in a && k in b && a[k] == b[k]
    ensures PrintPairs(keys, a) == PrintPairs(keys, b)
  {
    if keys != [] {
      PrintSame(keys[1..], a, b);
    }
  }

  lemma {:induction false} PrintWithout(keys: seq<string>, i: nat, values: map<string, string>)
    requires i < |keys| && forall k :: k in keys ==> k in values
    ensures forall k :: k in keys[..i] + keys[i + 1..] ==> k in values
    ensures |PrintPairs(keys, values)| == |PairText(keys[i], values[keys[i]])| + |PrintPairs(keys[..i] + keys[i + 1..], values)|
  {
    hide PairText;
    var rest := keys[..i] + keys[i + 1..];
    if i == 0 {
      assert rest == keys[1..];
    } else {
      PrintWithout(keys[1..], i - 1, values);
      assert rest[1..] == keys[1..][..i - 1] + keys[1..][i..] && rest[0] == keys[0];
    }
  }

  /** The pair that is read first. */
  lemma ReadFirst(s: string, b: nat)
    requires b < |s| && PairsFrom(s, b).Ok?
    ensures var e := FindClose(s, b, b);
            && b <= e < |s| && IsPair(s[b..e + 1]) && PairsFrom(s, e + 1).Ok? && s[e] == ']'
            && PairsFrom(s, b).value == map[PairKey(s[b..e + 1]) := PairValue(s[b..e + 1])] + PairsFrom(s, e + 1).value
  {
    hide IsPair, PairKey, PairValue;
  }

  /** Pairs that are read take at least as much text as it takes to print them. */
  lemma {:induction false} PairsNeed(s: string, b: nat, order: seq<string>)
    requires b <= |s| && PairsFrom(s, b).Ok? && Distinct(order) && forall k :: k in order ==> k in PairsFrom(s, b).value
    ensures |PrintPairs(order, PairsFrom(s, b).value)| <= |s| - b
    decreases |s| - b
  {
    hide *;
    if order == [] {
      NothingPrinted(PairsFrom(s, b).value);
    } else if b == |s| {
      NoPairs(s);
      HasFirst(order);
      assert false;
    } else {
      ReadFirst(s, b);
      var e := FindClose(s, b, b);
      var more, all := PairsFrom(s, e + 1).value, PairsFrom(s, b).value;
      var key := PairKey(s[b..e + 1]);
      PairBound(s[b..e + 1]);
      if key in order && key !in more {
        var i := Place(order, key);
        OthersDistinct(order, i);
        var rest := order[..i] + order[i + 1..];
        PrintWithout(order, i, all);
        PairsNeed(s, e + 1, rest);
        PrintSame(rest, more, all);
        PairLength(key, all[key]);
      } else {
        PairsNeed(s, e + 1, order);
        PrintSame(order, more, all);
      }
    }
  }

  lemma HasFirst<T>(s: seq<T>)
    requires s != []
    ensures s[0] in s
  {
  }

  lemma NothingPrinted(values: map<string, string>)
    ensures PrintPairs([], values) == ""
  {
  }

  lemma Place(order: seq<string>, key: string) returns (i: nat)
    requires key in order
    ensures i < |order| && order[i] == key
  {
    i :| 0 <= i < |order| && order[i] == key;
  }

  lemma OthersDistinct(order: seq<string>, i: nat)
    requires Distinct(order) && i < |order|
    ensures Distinct(order[..i] + order[i + 1..])
    ensures forall k :: k in order[..i] + order[i + 1..] <==> k in order && k != order[i]
  {
    forall k | k in order && k != order[i]
      ensures k in order[..i] + order[i + 1..]
    {
      var j := Place(order, k);
      assert j < i ==> order[..i][j] == k;
      assert j > i ==> order[i + 1..][j - i - 1] == k;
    }
  }

  lemma PairLength(key: string, v: string)
    ensures |PairText(key, v)| == |key| + |v| + 3
  {
  }

  lemma StillInKey(text: string, key: string, tail: string)
    requires IsIdentifier(key) && 2 <= |text| <= |key| + 2 && text <= "[" + key + "=" + tail
    ensures Last(text) != ']'
  {
    var whole := "[" + key + "=" + tail;
    assert Last(text) == whole[|text| - 1];
    if |text| < |key| + 2 {
      IdentifierQuiet(key);
      assert whole[|text| - 1] == key[|text| - 2] && key[|text| - 2] in key;
    } else {
      assert whole[|text| - 1] == '=';
    }
  }

  /** The key that is read first is the one printed first. */
  lemma FirstKey(text: string, key: string, tail: string)
    requires IsPair(text) && IsIdentifier(key) && text <= "[" + key + "=" + tail
    ensures PairKey(text) == key
  {
    hide *;
    IdentifierQuiet(key);
    PairEnclosed(text);
    if |text| <= |key| + 2 {
      StillInKey(text, key, tail);
      assert false;
    }
    var rest := text[|key| + 2..|text| - 1];
    KeyThenRest(text, key, tail);
    IndexOfUnique(key, '=', rest);
    KeyBefore(text, key, rest);
  }

  lemma PairEnclosed(text: string)
    requires IsPair(text)
    ensures |text| >= 2 && Last(text) == ']'
  {
  }

  lemma KeyThenRest(text: string, key: string, tail: string)
    requires |text| >= |key| + 3 && text <= "[" + key + "=" + tail
    ensures text[1..|text| - 1] == key + ['='] + text[|key| + 2..|text| - 1]
  {
    var whole := "[" + key + "=" + tail;
    assert text == whole[..|text|];
    assert whole[1..|key| + 1] == key && whole[|key| + 1] == '=';
    assert text[1..|key| + 1] == whole[1..|key| + 1] && text[|key| + 1] == '=';
  }

  lemma KeyBefore(text: string, key: string, rest: string)
    requires IsPair(text) && text[1..|text| - 1] == key + ['='] + rest && IndexOf(key + ['='] + rest, '=') == |key|
    ensures PairKey(text) == key
  {
    hide IsPair;
    assert (key + ['='] + rest)[..|key|] == key;
  }

  lemma SameCloses(s: string, b: nat, pair: string, k: nat)
    requires b + |pair| <= |s| && s[b..b + |pair|] == pair && !EscapedAt(s, b) && k < |pair|
    ensures ClosesAt(s, b, b + k) <==> ClosesAt(pair, 0, k)
  {
    hide Depth, EscapedAt;
    DepthWhereItStands(s, b, pair, k);
    DepthWhereItStands(s, b, pair, k + 1);
  }

  lemma StandsAlone(s: string, b: nat, pair: string)
    requires pair != "" && b + |pair| <= |s| && s[b..b + |pair|] == pair && !EscapedAt(s, b)
    requires FindClose(s, b, b) == b + |pair| - 1
    ensures FindClose(pair, 0, 0) == |pair| - 1
  {
    hide *;
    var last := |pair| - 1;
    forall k | 0 <= k < last
      ensures !ClosesAt(pair, 0, k)
    {
      SameCloses(s, b, pair, k);
      assert !ClosesAt(s, b, b + k);
    }
    SameCloses(s, b, pair, last);
    OpenIf(pair, last);
    CloseFound(pair, 0, last);
  }

  lemma OpenIf(pair: string, n: nat)
    requires n <= |pair| && forall k :: 0 <= k < n ==> !ClosesAt(pair, 0, k)
    ensures OpenPair(pair, 0, n)
  {
    hide ClosesAt;
  }

  /** What is left of the map once its first key is taken out. */
  lemma PickedRest(order: seq<string>, values: map<string, string>, v: string, more: map<string, string>)
    requires order != [] && Distinct(order) && forall k :: k in order ==> k in values
    requires Picked(order, values) == map[order[0] := v] + more
    ensures forall k :: k in order[1..] ==> k in more && more[k] == values[k]
    ensures order[0] in more ==> forall k :: k in order ==> k in more && more[k] == values[k]
    ensures order[0] !in more ==> v == values[order[0]] && more == Picked(order[1..], values)
  {
    hide *;
    var all, first := Picked(order, values), order[0];
    RestDistinct(order);
    FirstOnce(order);
    HasFirst(order);
    PickedAt(order, values);
    PickedAt(order[1..], values);
    forall k | k in order[1..]
      ensures k in more && more[k] == values[k]
    {
      assert k in all && all[k] == values[k];
    }
    assert first in more ==> all[first] == more[first];
    if first !in more {
      assert all[first] == v;
      forall k
        ensures At(more, k) == At(Picked(order[1..], values), k)
      {
        AtIs(more, k);
        AtIs(Picked(order[1..], values), k);
        assert k in more ==> k in all;
      }
      SameMap(more, Picked(order[1..], values));
    }
  }

  lemma PickedAt(keys: seq<string>, values: map<string, string>)
    requires forall k :: k in keys ==> k in values
    ensures forall k :: k in Picked(keys, values) <==> k in keys
    ensures forall k :: k in keys ==> Picked(keys, values)[k] == values[k]
  {
  }

  lemma AtIs(m: map<string, string>, k: string)
    ensures At(m, k) == if k in m then Some(m[k]) else None
  {
  }

  lemma FirstOnce(order: seq<string>)
    requires order != [] && Distinct(order)
    ensures order[0] !in order[1..]
  {
    assert forall i :: 0 <= i < |order[1..]| ==> order[1..][i] == order[i + 1];
  }

  /** If printed pairs are read back, each of them is read as it was printed. */
  lemma {:induction false} PairsTight(s: string, b: nat, order: seq<string>, values: map<string, string>)
    requires b <= |s| && !EscapedAt(s, b) && Distinct(order)
    requires forall k :: k in order ==> k in values && IsIdentifier(k)
    requires s[b..] == PrintPairs(order, values) && PairsFrom(s, b) == Ok(Picked(order, values))
    ensures forall k :: k in order ==> values[k] != "" && !Escapes(values[k]) && Nests(values[k])
    decreases |order|
  {
    hide *;
    if order != [] {
      var k, v, rest := order[0], values[order[0]], order[1..];
      var pair := PairText(k, v);
      PairEnds(k, v);
      PrintedFirst(s, b, order, values);
      ReadFirst(s, b);
      var e := FindClose(s, b, b);
      var read, more := PairValue(s[b..e + 1]), PairsFrom(s, e + 1).value;
      assert s[b..e + 1] <= s[b..];
      FirstKey(s[b..e + 1], k, v + "]" + PrintPairs(rest, values));
      PickedRest(order, values, read, more);
      PairBound(s[b..e + 1]);
      RestDistinct(order);
      PairLength(k, v);
      if k in more {
        PairsNeed(s, e + 1, order);
        PrintSame(order, more, values);
        assert false;
      }
      PairsNeed(s, e + 1, rest);
      PrintSame(rest, more, values);
      assert e + 1 == b + |pair| && s[b..e + 1] == pair;
      StandsAlone(s, b, pair);
      PairBack(k, v);
      NotEscapedBehind(s, e);
      PairsTight(s, e + 1, rest, values);
    }
  }

  lemma PrintedFirst(s: string, b: nat, order: seq<string>, values: map<string, string>)
    requires b <= |s| && order != [] && (forall k :: k in order ==> k in values) && s[b..] == PrintPairs(order, values)
    ensures var pair := PairText(order[0], values[order[0]]);
            && b + |pair| <= |s| && s[b..b + |pair|] == pair && s[b + |pair|..] == PrintPairs(order[1..], values)
            && |s| - b == |pair| + |PrintPairs(order[1..], values)|
            && s[b..] == "[" + order[0] + "=" + (values[order[0]] + "]" + PrintPairs(order[1..], values))
  {
    hide *;
    var k, v, rest := order[0], values[order[0]], PrintPairs(order[1..], values);
    PrintedStep(order, values);
    SkipPrefix(s, b, PairText(k, v), rest);
    PairTextBefore(k, v, rest);
  }

  lemma PrintedStep(order: seq<string>, values: map<string, string>)
    requires order != [] && forall k :: k in order ==> k in values
    ensures forall k :: k in order[1..] ==> k in values
    ensures PrintPairs(order, values) == PairText(order[0], values[order[0]]) + PrintPairs(order[1..], values)
  {
  }

  lemma PairTextBefore(key: string, v: string, rest: string)
    ensures PairText(key, v) + rest == "[" + key + "=" + (v + "]" + rest)
  {
  }

  lemma RestDistinct(order: seq<string>)
    requires order != [] && Distinct(order)
    ensures Distinct(order[1..]) && (forall k :: k in order[1..] ==> k in order)
    ensures forall k :: k in order ==> k == order[0] || k in order[1..]
  {
    assert order == [order[0]] + order[1..];
  }

  lemma NotEscapedBehind(s: string, e: nat)
    requires e < |s| && s[e] == ']'
    ensures !EscapedAt(s, e + 1)
  {
  }

  lemma PairBack(key: string, v: string)
    requires IsIdentifier(key) && IsPair(PairText(key, v)) && PairValue(PairText(key, v)) == v
    requires FindClose(PairText(key, v), 0, 0) == |PairText(key, v)| - 1
    ensures v != "" && !Escapes(v) && Nests(v)
  {
    hide *;
    IdentifierQuiet(key);
    PairMeaning(key, v);
    PairParts(key, v);
    UnescapeShrinks(v);
    ClosesLastNested(key, v);
    NestsIf(v);
  }

  lemma NestsIf(v: string)
    requires forall k :: 0 <= k < |v| && IsBracket(v[k]) ==> !EscapedAt(v, k)
    requires (forall n :: 0 <= n <= |v| ==> Depth(v, 0, n) >= 0) && Depth(v, 0, |v|) <= 0
    ensures Nests(v)
  {
    hide Depth;
  }

  // ---------------------------------------------------------------- one element

  /** The element that the parts of one piece make. */
  function ElemOf(parts: seq<Part>): Elem
    requires parts != [] && parts[0].Name?
  {
    Elem(parts[0].name, if |parts| == 2 && parts[1].Keys? then parts[1].pairs else map[])
  }

  lemma ElementParts(elem: string)
    requires ParseElement(elem).Ok?
    ensures var parts := ParseElement(elem).value;
            && 1 <= |parts| <= 2 && parts[0].Name?
            && (|parts| == 2 ==> parts[1].Keys?)
  {
  }

  /** The piece that stands for the element. */
  ghost predicate ReadsAs(w: string, e: Elem) {
    ParseElement(w).Ok? && ParseElement(w).value != [] && ParseElement(w).value[0].Name? && ElemOf(ParseElement(w).value) == e
  }

  /** It is at least as long as what is printed for that element. */
  lemma PieceNeeds(w: string, e: Elem, order: seq<string>)
    requires ReadsAs(w, e) && IsOrder(order, e.keys)
    ensures |PrintElem(e, order)| <= |w|
  {
    hide *;
    ReadParts(w, e);
    OrderIs(order, e.keys);
    ElemIs(e, order);
    var i := IndexOf(w, '[');
    if i == |w| {
      if order != [] {
        HasFirst(order);
        assert false;
      }
      NothingPrinted(e.keys);
    } else {
      PairsNeed(w[i..], 0, order);
    }
  }

  lemma ReadParts(w: string, e: Elem)
    requires ReadsAs(w, e)
    ensures var i := IndexOf(w, '[');
            && e.name == w[..i]
            && if i == |w| then e.keys == map[] else PairsFrom(w[i..], 0) == Ok(e.keys)
  {
    hide PairsFrom, IsIdentifier;
  }

  /** An element that is read back from what is printed for it. */
  lemma PieceTight(e: Elem, order: seq<string>)
    requires IsIdentifier(e.name) && (forall k :: k in e.keys ==> IsIdentifier(k)) && IsOrder(order, e.keys)
    requires ReadsAs(PrintElem(e, order), e) && IsPiece(PrintElem(e, order))
    ensures IsPrintable(e)
  {
    hide *;
    OrderIs(order, e.keys);
    var pairs := PrintPairs(order, e.keys);
    if order != [] {
      PairsRead(e, order);
      PairsTight(pairs, 0, order, e.keys);
      forall k | k in order
        ensures SlashesEnclosed(e.keys[k])
      {
        var i := Place(order, k);
        EnclosedBack(e, order, i);
      }
    }
    PrintableIf(e, order);
  }

  lemma OrderIs(order: seq<string>, keys: map<string, string>)
    requires IsOrder(order, keys)
    ensures Distinct(order) && Picked(order, keys) == keys && forall k :: k in order <==> k in keys
  {
  }

  lemma PairsRead(e: Elem, order: seq<string>)
    requires IsIdentifier(e.name) && order != [] && (forall k :: k in order <==> k in e.keys)
    requires ReadsAs(PrintElem(e, order), e) && Picked(order, e.keys) == e.keys
    ensures var pairs := PrintPairs(order, e.keys);
            pairs[0..] == pairs && PairsFrom(pairs, 0) == Ok(Picked(order, e.keys)) && !EscapedAt(pairs, 0)
  {
    hide PairsFrom, IsIdentifier, ParseElement, PairText;
    PairEnds(order[0], e.keys[order[0]]);
    PairsParts(e.name, PrintPairs(order, e.keys));
  }

  lemma PrintableIf(e: Elem, order: seq<string>)
    requires IsIdentifier(e.name) && (forall k :: k in order <==> k in e.keys)
    requires forall k :: k in e.keys ==> IsIdentifier(k) && e.keys[k] != "" && !Escapes(e.keys[k]) && Nests(e.keys[k])
    requires forall k :: k in e.keys ==> SlashesEnclosed(e.keys[k])
    ensures IsPrintable(e)
  {
    hide IsIdentifier, Escapes, Nests, SlashesEnclosed;
  }

  /** Between two pairs the brackets are closed. */
  lemma {:induction false} ClosedBetween(name: string, order: seq<string>, values: map<string, string>)
    requires IsIdentifier(name) && forall k :: k in order ==> k in values && values[k] != "" && !Escapes(values[k])
    ensures !Inside(name + PrintPairs(order, values)) && !Escapes(name + PrintPairs(order, values))
    decreases |order|
  {
    hide *;
    if order == [] {
      NamePiece(name);
      PieceClosed(name);
      NothingPrinted(values);
      assert name + "" == name;
    } else {
      var front, k := Init(order), Last(order);
      InitLast(order);
      PairClosed(name + PrintPairs(front, values), k, values[k]);
      PrintPairsSnoc(front, k, values);
      ConcatAssoc(name, PrintPairs(front, values), PairText(k, values[k]));
    }
  }

  lemma PieceClosed(w: string)
    requires IsPiece(w)
    ensures !Inside(w)
  {
  }

  lemma {:induction false} PrintedConcat(a: seq<string>, b: seq<string>, values: map<string, string>)
    requires forall k :: k in a + b ==> k in values
    ensures (forall k :: k in a ==> k in values) && forall k :: k in b ==> k in values
    ensures PrintPairs(a + b, values) == PrintPairs(a, values) + PrintPairs(b, values)
  {
    hide PairText;
    if a == [] {
      assert a + b == b;
    } else {
      assert (a + b)[1..] == a[1..] + b;
      PrintedConcat(a[1..], b, values);
    }
  }

  /** In a piece the slashes of a value are enclosed. */
  lemma EnclosedBack(e: Elem, order: seq<string>, i: nat)
    requires IsIdentifier(e.name) && i < |order|
    requires forall k :: k in order ==> k in e.keys && IsIdentifier(k) && e.keys[k] != "" && !Escapes(e.keys[k])
    requires IsPiece(PrintElem(e, order))
    ensures SlashesEnclosed(e.keys[order[i]])
  {
    hide *;
    var key, v := order[i], e.keys[order[i]];
    var front, back := order[..i], order[i + 1..];
    assert order == front + order[i..] && order[i..] == [key] + back;
    PrintedConcat(front, order[i..], e.keys);
    PrintedConcat([key], back, e.keys);
    OnePrinted(key, e.keys);
    ClosedBetween(e.name, front, e.keys);
    var a, tail := e.name + PrintPairs(front, e.keys), PrintPairs(back, e.keys);
    assert PrintElem(e, order) == a + PairText(key, v) + tail by { ElemIs(e, order); }
    EnclosedWithin(a, key, v, tail);
  }

  lemma ElemIs(e: Elem, order: seq<string>)
    requires forall k :: k in order ==> k in e.keys
    ensures PrintElem(e, order) == e.name + PrintPairs(order, e.keys)
  {
  }

  lemma OnePrinted(key: string, values: map<string, string>)
    requires key in values
    ensures PrintPairs([key], values) == PairText(key, values[key])
  {
    assert [key][1..] == [];
  }

  lemma EnclosedWithin(a: string, key: string, v: string, tail: string)
    requires !Escapes(a) && IsIdentifier(key) && IsPiece(a + PairText(key, v) + tail)
    ensures SlashesEnclosed(v)
  {
    hide Inside, PairText, IsIdentifier, Escapes;
    var mid := ['['] + (key + "=");
    var w := a + PairText(key, v) + tail;
    PairBehind(a, key, v);
    forall k | 0 <= k < |v| && v[k] == '/'
      ensures Inside("[" + v[..k])
    {
      var j := |a + mid| + k;
      UpTo(a, mid, v, j);
      assert w[j] == v[k] && w[..j] == a + mid + v[..k];
      InsideValue(a, key, v, k);
    }
  }

  // ---------------------------------------------------------------- the pieces of the text

  /** The pieces, each followed by a slash. */
  function Trailed(pieces: seq<string>): string {
    if pieces == [] then "" else Trailed(Init(pieces)) + Last(pieces) + "/"
  }

  lemma TrailedSnoc(pieces: seq<string>, w: string)
    ensures Trailed(pieces + [w]) == Trailed(pieces) + w + "/"
  {
    assert Init(pieces + [w]) == pieces;
  }

  /** What is cut up takes at least as much text as its pieces, and if no more, the text is that of the pieces. */
  lemma {:induction false} CutTight(s: string)
    ensures |Trailed(CutUp(s).pieces)| + |CutUp(s).open| <= |s|
    ensures |Trailed(CutUp(s).pieces)| + |CutUp(s).open| == |s| ==> Trailed(CutUp(s).pieces) + CutUp(s).open == s
    decreases |s|
  {
    hide *;
    if s == "" {
      NothingCut();
      NothingTrailed();
    } else {
      InitLast(s);
      CutTight(Init(s));
      CutStep(s);
      var before := CutUp(Init(s));
      TrailedSnoc(before.pieces, before.open);
      if before.open == "" {
        assert Trailed(before.pieces) + before.open == Trailed(before.pieces);
      }
    }
  }

  lemma CutStep(s: string)
    requires s != ""
    ensures var cut := CutUp(Init(s));
            CutUp(s) == if Last(s) == '/' && !Inside(Init(s))
                        then Cut(if cut.open == "" then cut.pieces else cut.pieces + [cut.open], "")
                        else Cut(cut.pieces, cut.open + [Last(s)])
  {
    hide Inside;
  }

  lemma NothingTrailed()
    ensures Trailed([]) == ""
  {
  }

  lemma {:induction false} SlashedTrailed(ws: seq<string>)
    ensures Slashed(ws) + "/" == "/" + Trailed(ws)
    decreases |ws|
  {
    hide *;
    if ws == [] {
      NothingTrailed();
      NothingSlashed();
    } else {
      InitLast(ws);
      SlashedTrailed(Init(ws));
      SlashedAppend(Init(ws), [Last(ws)]);
      OneSlashed(Last(ws));
      TrailedSnoc(Init(ws), Last(ws));
      assert Slashed(ws) + "/" == (Slashed(Init(ws)) + "/") + Last(ws) + "/";
    }
  }

  lemma OneSlashed(w: string)
    ensures Slashed([w]) == "/" + w
  {
    assert [w][1..] == [];
  }

  /** The pieces that printed pieces are split into are no longer than those, and if no shorter, their text is the same. */
  lemma SplitTight(ws: seq<string>, pieces: seq<string>)
    requires Split(Slashed(ws)) == Ok(pieces)
    ensures |Trailed(pieces)| <= |Trailed(ws)|
    ensures |Trailed(pieces)| == |Trailed(ws)| ==> Trailed(pieces) == Trailed(ws)
  {
    hide *;
    TrailingSlash(Slashed(ws));
    SlashedTrailed(ws);
    SlashIsBoundary();
    ReadPastBoundary("/", Trailed(ws));
    assert [] + CutUp(Trailed(ws)).pieces == CutUp(Trailed(ws)).pieces;
    CutTight(Trailed(ws));
    if CutUp(Trailed(ws)).open == "" {
      assert Trailed(pieces) + "" == Trailed(pieces);
    }
  }

  lemma SlashIsBoundary()
    ensures IsBoundary("/") && CutUp("/") == Cut([], "")
  {
    assert Init("/") == "";
  }

  lemma {:induction false} TrailedLonger(a: seq<string>, b: seq<string>)
    requires |a| == |b| && forall i :: 0 <= i < |a| ==> |a[i]| >= |b[i]|
    ensures |Trailed(a)| >= |Trailed(b)|
  {
    if a != [] {
      TrailedLonger(Init(a), Init(b));
    }
  }

  lemma {:induction false} SamePieces(a: seq<string>, b: seq<string>)
    requires |a| == |b| && Trailed(a) == Trailed(b) && forall i :: 0 <= i < |a| ==> |a[i]| >= |b[i]|
    ensures a == b
  {
    if a != [] {
      var c, d := Trailed(Init(a)), Trailed(Init(b));
      TrailedLonger(Init(a), Init(b));
      assert c + Last(a) + "/" == d + Last(b) + "/" && |Last(a)| >= |Last(b)|;
      hide Trailed;
      SameEnds(c, Last(a), d, Last(b));
      SamePieces(Init(a), Init(b));
      InitLast(a);
      InitLast(b);
    }
  }

  lemma SameEnds(c: string, x: string, d: string, y: string)
    requires c + x + "/" == d + y + "/" && |c| >= |d| && |x| >= |y|
    ensures c == d && x == y
  {
    assert |c + x + "/"| == |d + y + "/"|;
    assert c == (c + x + "/")[..|c|] && d == (d + y + "/")[..|d|];
    assert x == (c + x + "/")[|c|..|c| + |x|] && y == (d + y + "/")[|d|..|d| + |y|];
  }

  lemma ElemMore(front: seq<Part>, last: seq<Part>)
    requires 1 <= |last| <= 2 && last[0].Name? && (|last| == 2 ==> last[1].Keys?)
    requires Assemble(front + last).Ok?
    ensures Assemble(front).Ok? && Assemble(front + last).value == Assemble(front).value + [ElemOf(last)]
  {
    hide Assemble;
    AssembleSnoc(front, last[0]);
    if |last| == 1 {
      assert front + last == front + [last[0]];
    } else {
      AssembleSnoc(front + [last[0]], last[1]);
      assert front + last == front + [last[0]] + [last[1]];
    }
  }

  /** Every piece becomes one element. */
  lemma {:induction false} PieceEach(pieces: seq<string>)
    requires ParseElements(pieces).Ok? && Assemble(ParseElements(pieces).value).Ok?
    ensures var p := Assemble(ParseElements(pieces).value).value;
            |p| == |pieces| && forall i :: 0 <= i < |p| ==> ReadsAs(pieces[i], p[i])
    decreases |pieces|
  {
    hide *;
    if pieces == [] {
      NothingRead();
    } else {
      InitLast(pieces);
      ParseSnoc(Init(pieces), Last(pieces));
      AppendIs(ParseElements(Init(pieces)), ParseElement(Last(pieces)));
      ElementParts(Last(pieces));
      ElemMore(ParseElements(Init(pieces)).value, ParseElement(Last(pieces)).value);
      PieceEach(Init(pieces));
      ReadsIf(Last(pieces));
    }
  }

  lemma ReadsIf(w: string)
    requires ParseElement(w).Ok? && ParseElement(w).value != [] && ParseElement(w).value[0].Name?
    ensures ReadsAs(w, ElemOf(ParseElement(w).value))
  {
  }

  // ---------------------------------------------------------------- the exact condition

  predicate AllIdentifiers(p: Path) {
    forall e :: e in p ==> IsIdentifier(e.name) && forall k :: k in e.keys ==> IsIdentifier(k)
  }

  /** What is read back has been split into the printed pieces. */
  lemma PiecesAsPrinted(p: Path, orders: seq<seq<string>>)
    requires AreOrders(orders, p) && PathOf(Printed(p, orders)) == Ok(p)
    ensures forall i :: 0 <= i < |p| ==> ReadsAs(PrintElem(p[i], orders[i]), p[i]) && IsPiece(PrintElem(p[i], orders[i]))
  {
    var ws := PrintedElems(p, orders);
    assert Printed(p, orders) == Slashed(ws) && |ws| == |p|;
    assert forall i :: 0 <= i < |p| ==> ws[i] == PrintElem(p[i], orders[i]);
    assert forall i :: 0 <= i < |p| ==> IsOrder(orders[i], p[i].keys);
    var pieces := Split(Slashed(ws)).value;
    assert Assemble(ParseElements(pieces).value) == Ok(p) && Split(Slashed(ws)) == Ok(pieces);
    hide *;
    PieceEach(pieces);
    forall i | 0 <= i < |p|
      ensures |pieces[i]| >= |ws[i]|
    {
      PieceNeeds(pieces[i], p[i], orders[i]);
    }
    SplitTight(ws, pieces);
    TrailedLonger(pieces, ws);
    SamePieces(pieces, ws);
    SplitYieldsPieces(Slashed(ws));
  }

  lemma SplitYieldsPieces(text: string)
    requires Split(text).Ok?
    ensures forall w :: w in Split(text).value ==> IsPiece(w)
  {
    hide Split, IsPiece;
    SplitExact(text, Split(text).value);
  }

  /** Print, then parse, for names and keys that are identifiers: a path comes back exactly when all its values print back,
      whatever their number and the order in which they are printed. */
  lemma PrintableExact(p: Path, orders: seq<seq<string>>)
    requires AreOrders(orders, p) && AllIdentifiers(p)
    ensures PathOf(Printed(p, orders)) == Ok(p) <==> forall e :: e in p ==> IsPrintable(e)
  {
    if forall e :: e in p ==> IsPrintable(e) {
      hide *;
      PrintableReads(p, orders);
    }
    if PathOf(Printed(p, orders)) == Ok(p) {
      hide PathOf, Printed, ReadsAs, IsPiece, IsPrintable, IsIdentifier;
      PiecesAsPrinted(p, orders);
      forall i | 0 <= i < |p|
        ensures IsPrintable(p[i])
      {
        PieceTight(p[i], orders[i]);
      }
    }
  }

  /** For one list element with one key. */
  lemma PrintThenParseExact(name: string, key: string, v: string)
    requires IsIdentifier(name) && IsIdentifier(key)
    ensures var p := [Elem(name, map[key := v])];
            && AreOrders([[key]], p)
            && (PathOf(Printed(p, [[key]])) == Ok(p) <==> PrintsBack(v))
  {
    var e := Elem(name, map[key := v]);
    assert IsOrder([key], e.keys) && key in e.keys;
    hide PathOf, Printed, PrintsBack, IsIdentifier;
    PrintableExact([e], [[key]]);
    assert e in [e] && (IsPrintable(e) <==> PrintsBack(v));
  }
}
