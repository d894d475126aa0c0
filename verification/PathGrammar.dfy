/** Exactly which texts are paths, and which path each of them is (utilities/xpath/xpath.go, utilities/xpath/path.go). */
module PathGrammar {
  import opened Text
  import opened XPath
  import opened KeyValues
  import opened PathText
  import opened Schema

  /** The text of the list element e: its name, and one or more pairs that say its keys. */
  ghost predicate IsListText(w: string, e: Elem, pairs: seq<(string, string)>) {
    && pairs != [] && IsTextOf(PairsText(pairs), pairs) && Says(e.keys, pairs)
    && w == e.name + PairsText(pairs)
  }

  /** The text of the element e. */
  ghost predicate IsElementText(w: string, e: Elem) {
    if '[' !in w then
      e == Elem(w, map[]) && (MatchesIdPattern(w) || w == "." || w == ".." || ('=' in w && w[0] != '='))
    else
      MatchesIdPattern(e.name) && exists pairs :: IsListText(w, e, pairs)
  }

  /** A text is read as the path p exactly when it splits into the texts of its elements. */
  lemma PathExact(text: string, p: Path)
    ensures PathOf(text) == Ok(p)
            <==> && Split(text).Ok? && |Split(text).value| == |p|
                 && forall i :: 0 <= i < |p| ==> IsElementText(Split(text).value[i], p[i])
  {
    hide *;
    PathOfIs(text);
    NoParts(text);
    if Split(text).Ok? {
      var pieces := Split(text).value;
      SplitIs(text);
      PartsIs(text, pieces);
      PiecesThere(text);
      if |pieces| == |p| && forall i :: 0 <= i < |p| ==> IsElementText(pieces[i], p[i]) {
        ElementsRead(pieces, p);
        AssembleAll(p);
      }
      if PathOf(text) == Ok(p) {
        var q := ElementsBack(pieces);
        AssembleAll(q);
      }
    }
  }

  lemma SplitIs(text: string)
    ensures Split(text).Ok? ==> Split(text) == Ok(Split(text).value)
  {
  }

  lemma NoParts(text: string)
    ensures Split(text).Err? ==> Parts(text).Err?
  {
  }

  lemma PiecesThere(text: string)
    requires Split(text).Ok?
    ensures forall i :: 0 <= i < |Split(text).value| ==> Split(text).value[i] != ""
  {
    SplitNormalises(text);
    hide Split, Inside;
    forall i | 0 <= i < |Split(text).value|
      ensures Split(text).value[i] != ""
    {
      assert IsPiece(Split(text).value[i]);
    }
  }

  lemma {:induction false} ElementsRead(pieces: seq<string>, p: Path)
    requires |pieces| == |p| && forall i :: 0 <= i < |p| ==> pieces[i] != "" && IsElementText(pieces[i], p[i])
    ensures ParseElements(pieces) == Ok(AllParts(p))
    decreases |p|
  {
    hide *;
    NothingRead();
    AllPartsStep(p);
    if p != [] {
      InitLast(pieces);
      Front(pieces);
      Front(p);
      ElementsRead(Init(pieces), Init(p));
      ParseSnoc(Init(pieces), Last(pieces));
      ElementRead(Last(pieces), Last(p));
      AppendIs(ParseElements(Init(pieces)), ParseElement(Last(pieces)));
    }
  }

  lemma Front<T>(s: seq<T>)
    requires s != []
    ensures |Init(s)| == |s| - 1 && Last(s) == s[|s| - 1] && forall i :: 0 <= i < |s| - 1 ==> Init(s)[i] == s[i]
  {
  }

  lemma AllPartsStep(p: Path)
    ensures AllParts(p) == if p == [] then [] else AllParts(Init(p)) + PartsOf(Last(p))
  {
  }

  lemma {:induction false} ElementsBack(pieces: seq<string>) returns (p: Path)
    requires ParseElements(pieces).Ok? && forall i :: 0 <= i < |pieces| ==> pieces[i] != ""
    ensures |p| == |pieces| && ParseElements(pieces) == Ok(AllParts(p))
    ensures forall i :: 0 <= i < |p| ==> IsElementText(pieces[i], p[i])
    decreases |pieces|
  {
    hide *;
    NothingRead();
    if pieces == [] {
      p := [];
      AllPartsStep(p);
    } else {
      InitLast(pieces);
      Front(pieces);
      ParseSnoc(Init(pieces), Last(pieces));
      AppendIs(ParseElements(Init(pieces)), ParseElement(Last(pieces)));
      var front := ElementsBack(Init(pieces));
      var e := ElementBack(Last(pieces));
      p := front + [e];
      AllPartsStep(p);
      InitOfSnoc(front, e);
    }
  }

  lemma InitOfSnoc(p: Path, e: Elem)
    ensures Init(p + [e]) == p && Last(p + [e]) == e
  {
  }

  lemma NamedIs(w: string, e: Elem)
    requires '[' !in w
    ensures IsElementText(w, e)
            <==> e == Elem(w, map[]) && (MatchesIdPattern(w) || w == "." || w == ".." || ('=' in w && w[0] != '='))
  {
  }

  lemma ListedIs(w: string, e: Elem)
    requires '[' in w
    ensures IsElementText(w, e) <==> MatchesIdPattern(e.name) && exists pairs :: IsListText(w, e, pairs)
  {
  }

  lemma ElementRead(w: string, e: Elem)
    requires w != "" && IsElementText(w, e)
    ensures ParseElement(w) == Ok(PartsOf(e))
  {
    hide *;
    if '[' !in w {
      NamedIs(w, e);
      PatternIs(w);
      ElementNamed(w);
    } else {
      ListedIs(w, e);
      PatternIs(e.name);
      var pairs: seq<(string, string)> :| IsListText(w, e, pairs);
      var text := PairsText(pairs);
      ListTextParts(w, e, pairs);
      PairsAre(text);
      assert text[0..] == text;
      NotEscaped(text);
      TextParts(text, pairs);
      LaterReplaces(text, 0, pairs);
      SaysOne(e.keys, Pairs(text).value, pairs);
      IdentifierQuiet(e.name);
      StartsPair(pairs);
      ListParts(e.name, text);
      SaysSome(e.keys, pairs);
      KeyedPartsOf(e, pairs[0].0);
    }
  }

  lemma ListTextParts(w: string, e: Elem, pairs: seq<(string, string)>)
    ensures IsListText(w, e, pairs)
            <==> pairs != [] && IsTextOf(PairsText(pairs), pairs) && Says(e.keys, pairs) && w == e.name + PairsText(pairs)
  {
  }

  lemma StartsPair(pairs: seq<(string, string)>)
    requires pairs != []
    ensures PairsText(pairs) != "" && PairsText(pairs)[0] == '['
  {
  }

  lemma SaysSome(keys: map<string, string>, pairs: seq<(string, string)>)
    requires pairs != [] && Says(keys, pairs)
    ensures pairs[0].0 in keys
  {
    assert pairs[0].0 == pairs[0].0;
  }

  lemma ElementBack(w: string) returns (e: Elem)
    requires w != "" && ParseElement(w).Ok?
    ensures ParseElement(w) == Ok(PartsOf(e)) && IsElementText(w, e)
  {
    hide *;
    if '[' !in w {
      e := Elem(w, map[]);
      NamedIs(w, e);
      PatternIs(w);
      ElementNamed(w);
    } else {
      var i := IndexOf(w, '[');
      var name, text := w[..i], w[i..];
      assert w == name + text;
      BeforeBracket(w);
      ListElement(w);
      PairsAre(text);
      NotEscaped(text);
      var pairs := PairsBack(text, 0);
      assert text[0..] == text;
      e := Elem(name, Pairs(text).value);
      NoText();
      LaterReplaces(text, 0, pairs);
      TextIf(text, pairs);
      ListTextParts(w, e, pairs);
      ListedIs(w, e);
      PatternIs(name);
      SaysSome(e.keys, pairs);
      KeyedPartsOf(e, pairs[0].0);
    }
  }

  lemma BeforeBracket(w: string)
    requires '[' in w
    ensures var i := IndexOf(w, '['); i < |w| && w[i] == '['
  {
  }

  lemma ListElement(w: string)
    requires '[' in w && ParseElement(w).Ok?
    ensures var i := IndexOf(w, '[');
            IsIdentifier(w[..i]) && Pairs(w[i..]).Ok? && ParseElement(w) == Ok([Name(w[..i]), Keys(Pairs(w[i..]).value)])
  {
    hide Pairs, IsIdentifier;
  }

  /** ToSchemaPath reads the same texts as ToGNMIPath, and gives the names of that path, each led by a slash. */
  lemma SchemaPathExact(text: string)
    ensures SchemaPathOf(text).Ok? <==> PathOf(text).Ok?
    ensures PathOf(text).Ok? ==> SchemaPathOf(text) == Ok(Slashed(Names(PathOf(text).value)))
  {
    hide *;
    PathOfIs(text);
    SchemaPathIs(text);
    NoParts(text);
    if Parts(text).Ok? {
      var pieces := Split(text).value;
      SplitIs(text);
      PartsIs(text, pieces);
      PiecesThere(text);
      var p := ElementsBack(pieces);
      AssembleAll(p);
      NamesInParts(p);
    }
  }

  lemma SchemaPathIs(text: string)
    ensures SchemaPathOf(text) == if Parts(text).Err? then Err else Ok(Slashed(NamesIn(Parts(text).value)))
  {
  }

  lemma {:induction false} NamesInParts(p: Path)
    ensures NamesIn(AllParts(p)) == Names(p)
    decreases |p|
  {
    hide *;
    AllPartsStep(p);
    NamesAre(p);
    if p != [] {
      Front(p);
      NamesInParts(Init(p));
      NamesAre(Init(p));
      NamesOfElem(AllParts(Init(p)), Last(p));
    } else {
      NoNames();
    }
  }

  lemma NamesAre(p: Path)
    ensures |Names(p)| == |p| && forall i :: 0 <= i < |p| ==> Names(p)[i] == p[i].name
  {
  }

  lemma NoNames()
    ensures NamesIn([]) == []
  {
  }

  lemma NamesOfElem(parts: seq<Part>, e: Elem)
    ensures NamesIn(parts + PartsOf(e)) == NamesIn(parts) + [e.name]
  {
    hide NamesIn;
    NamesOne(parts, Name(e.name));
    NamesOne(parts + [Name(e.name)], Keys(e.keys));
    assert parts + PartsOf(e) == if e.keys == map[] then parts + [Name(e.name)] else parts + [Name(e.name)] + [Keys(e.keys)];
  }

  lemma NamesOne(parts: seq<Part>, part: Part)
    ensures NamesIn(parts + [part]) == NamesIn(parts) + (if part.Name? then [part.name] else [])
  {
    assert Init(parts + [part]) == parts;
  }
}
