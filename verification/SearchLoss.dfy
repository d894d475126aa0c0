/** Where the two searches of the data tree (gnmi/model/utilities.go) part: findAllData never finds more than
    findAllDataNodes, and it loses something on some tree exactly for the patterns with a name right after a '...'. */
module SearchLoss {
  import opened Text
  import opened DataSearch

  lemma {:induction false} BothHas(v: Data, children: seq<Data>, i: nat, elems: seq<Pattern>)
    requires elems != [] && AllBelow(children, v) && i < |children|
    ensures multiset(Reached(children[i], elems[1..]) + Reached(children[i], elems)) <= multiset(ReachedBoth(v, children, elems))
  {
    var front, last := Init(children), Last(children);
    assert children == front + [last];
    BothSnoc(v, front, last, elems);
    if i < |children| - 1 {
      BothHas(v, front, i, elems);
    }
    hide Reached, ReachedBoth;
  }

  lemma {:induction false} EachBounded(v: Data, children: seq<Data>, elems: seq<Pattern>)
    requires AllBelow(children, v) && forall i :: 0 <= i < |children| ==> Proper(children[i]) && !children[i].List?
    ensures multiset(FoundEach(v, children, elems)) <= multiset(ReachedEach(v, children, elems))
    decreases v, 0, |children|
  {
    if children != [] {
      EachBounded(v, Init(children), elems);
      NeverInvents(Last(children), elems);
      hide Found, Reached, Proper;
    }
  }

  lemma {:induction false} AgainBounded(v: Data, children: seq<Data>, elems: seq<Pattern>)
    requires elems != [] && elems[0].Dots?
    requires AllBelow(children, v) && forall i :: 0 <= i < |children| ==> Proper(children[i]) && !children[i].List?
    ensures multiset(FoundAgain(v, children, elems)) <= multiset(ReachedEach(v, children, elems))
    decreases v, 0, |children|
  {
    if children != [] {
      AgainBounded(v, Init(children), elems);
      MovedBounded(Last(children), elems);
      hide Found, Reached, Proper, After;
    }
  }

  /** From the cursor that the first loop left behind, the second one finds no more than is there. */
  lemma {:induction false} MovedBounded(c: Data, elems: seq<Pattern>)
    requires elems != [] && elems[0].Dots? && Proper(c) && !c.List?
    ensures multiset(Found(After(c, elems[1..]), elems)) <= multiset(Reached(c, elems))
    decreases c, 2, 0
  {
    var list := After(c, elems[1..]);
    if list == c {
      NeverInvents(c, elems);
    } else {
      var i := MovedToField(c, elems[1..]);
      ListBounded(list, elems);
      BothHas(c, GetAll(c), i, elems);
      ReachedUnder(c, elems);
    }
  }

  /** A cursor moves to a list that is a field of its struct. */
  lemma MovedToField(c: Data, elems: seq<Pattern>) returns (i: nat)
    requires Proper(c) && After(c, elems) != c
    ensures c.Struct? && i < |GetAll(c)| && GetAll(c)[i] == After(c, elems) && After(c, elems).List? && Proper(After(c, elems))
  {
    i :| 0 <= i < |c.fields| && ValueOf(c.fields, elems[0].name).value == c.fields[i].value;
    FieldProper(c.fields, i);
  }

  lemma {:induction false} ListBounded(list: Data, elems: seq<Pattern>)
    requires Proper(list) && list.List? && elems != [] && elems[0].Dots?
    ensures multiset(Found(list, elems)) <= multiset(Reached(list, elems[1..]) + Reached(list, elems))
    decreases list, 1, 0
  {
    var children := FieldValues(list.entries);
    assert AllChildren(list) == children == GetAll(list);
    FoundUnder(list, elems);
    EachBounded(list, children, elems[1..]);
    AgainBounded(list, children, elems);
    ListReached(list, elems);
    hide Found, Reached, FoundEach, FoundAgain, ReachedEach;
  }

  lemma ListReached(list: Data, elems: seq<Pattern>)
    requires list.List? && elems != []
    ensures Reached(list, elems) == ReachedEach(list, GetAll(list), elems)
    ensures Reached(list, elems[1..]) == ReachedEach(list, GetAll(list), elems[1..])
  {
  }

  /** findAllData finds nothing that findAllDataNodes does not reach, and nothing more often: for every tree and
      every pattern. */
  lemma {:induction false} NeverInvents(v: Data, elems: seq<Pattern>)
    requires Proper(v) && !v.List?
    ensures multiset(Found(v, elems)) <= multiset(Reached(v, elems))
    decreases v, 1, 0
  {
    if elems != [] && !v.Scalar? {
      var rest := elems[1..];
      if elems[0].Star? || elems[0].Dots? {
        var children := AllChildren(v);
        AllChildrenParts(v);
        ProperParts(v, children);
        EachBounded(v, children, rest);
        ChildrenReached(v, rest);
        if elems[0].Dots? {
          AgainBounded(v, children, elems);
          ChildrenReached(v, elems);
          BothSplit(v, GetAll(v), elems);
        }
      } else if v.Struct? {
        var children := Children(v, elems[0]);
        ChildrenParts(v, elems[0]);
        ProperParts(v, children);
        EachBounded(v, children, rest);
        NamedBounded(v, elems);
      }
    }
  }

  lemma ProperParts(v: Data, children: seq<Data>)
    requires AllPartsOf(children, v) && Proper(v)
    ensures forall i :: 0 <= i < |children| ==> Proper(children[i]) && !children[i].List?
  {
    forall i | 0 <= i < |children|
      ensures Proper(children[i]) && !children[i].List?
    {
      assert PartOf(children[i], v);
    }
  }

  lemma NamedBounded(v: Data, elems: seq<Pattern>)
    requires v.Struct? && elems != [] && (elems[0].Name? || elems[0].Keyed?)
    requires multiset(FoundEach(v, Children(v, elems[0]), elems[1..])) <= multiset(ReachedEach(v, Children(v, elems[0]), elems[1..]))
    ensures multiset(Found(v, elems)) <= multiset(Reached(v, elems))
  {
    FoundUnder(v, elems);
    ReachedNamed(v, elems);
    hide *;
  }

  lemma ReachedNamed(v: Data, elems: seq<Pattern>)
    requires v.Struct? && elems != [] && (elems[0].Name? || elems[0].Keyed?)
    ensures Reached(v, elems) == ReachedEach(v, Children(v, elems[0]), elems[1..])
  {
    var child, rest := Find(v, elems[0]), elems[1..];
    ReachedUnder(v, elems);
    ChildrenAre(v, elems[0]);
    if child.Some? {
      if child.value.List? {
        ReachedList(v, child.value, rest);
      } else {
        ReachedOne(v, child.value, rest);
      }
    }
    hide Reached, Children, Find;
  }

  // ---------------------------------------------------------------- for which patterns something is lost

  lemma SizeBounded<T>(a: seq<T>, b: seq<T>)
    requires multiset(a) <= multiset(b)
    ensures |a| <= |b|
  {
    var more := multiset(b) - multiset(a);
    assert multiset(b) == multiset(a) + more;
    assert |multiset(a)| == |a| && |multiset(b)| == |b|;
  }

  /** The search loses something of the tree. */
  ghost predicate Loses(v: Data, elems: seq<Pattern>) {
    Proper(v) && v.Struct? && |Found(v, elems)| < |Reached(v, elems)|
  }

  /** A tree in which the pattern element leads to w alone. */
  function Wrap(p: Pattern, w: Data): Data {
    match p
    case Name(name) => Struct([Field(name, w)])
    case Keyed(name, key) => Struct([Field(name, List([Field(key, w)]))])
    case _ => Struct([Field("x", w)])
  }

  lemma OneFieldTree(name: string, w: Data)
    requires w.Struct?
    ensures var v := Struct([Field(name, w)]);
            && AllChildren(v) == [w] && GetAll(v) == [w] && w < v
            && Children(v, Name(name)) == [w] && After(v, [Name(name)]) == v
            && (Proper(w) ==> Proper(v))
  {
    var v := Struct([Field(name, w)]);
    OneField(Field(name, w));
    assert v.fields[0].value == w;
    assert Last(v.fields).name == name;
  }

  lemma OneEntryTree(name: string, key: string, w: Data)
    requires w.Struct?
    ensures var v := Struct([Field(name, List([Field(key, w)]))]);
            Children(v, Keyed(name, key)) == [w] && w < v && (Proper(w) ==> Proper(v))
  {
    var list := List([Field(key, w)]);
    var v := Struct([Field(name, list)]);
    assert v.fields[0].value == list && list.entries[0].value == w;
    assert Last(v.fields).name == name && Last(list.entries).name == key;
    assert Proper(w) ==> Proper(list);
  }

  lemma WrapReached(p: Pattern, w: Data, elems: seq<Pattern>)
    requires w.Struct?
    ensures var v := Wrap(p, w);
            && v.Struct? && (Proper(w) ==> Proper(v))
            && Reached(v, [p] + elems) == if p.Dots? then Reached(w, elems) + Reached(w, [p] + elems) else Reached(w, elems)
  {
    var v, all := Wrap(p, w), [p] + elems;
    assert all[1..] == elems;
    hide Reached, ReachedEach, ReachedBoth, Found, Proper;
    if p.Keyed? {
      OneEntryTree(p.name, p.key, w);
      ReachedNamed(v, all);
    } else {
      OneFieldTree(v.fields[0].name, w);
      if p.Name? {
        ReachedNamed(v, all);
      } else {
        ReachedWild(v, all);
      }
    }
    ReachedOne(v, w, elems);
    if p.Dots? {
      BothOfOne(v, w, all);
    }
  }

  lemma ReachedWild(v: Data, elems: seq<Pattern>)
    requires v.Struct? && elems != []
    ensures elems[0].Star? ==> Reached(v, elems) == ReachedEach(v, GetAll(v), elems[1..])
    ensures elems[0].Dots? ==> Reached(v, elems) == ReachedBoth(v, GetAll(v), elems)
  {
  }

  lemma BothOfOne(v: Data, c: Data, elems: seq<Pattern>)
    requires elems != [] && c < v
    ensures ReachedBoth(v, [c], elems) == Reached(c, elems[1..]) + Reached(c, elems)
  {
    var x := Reached(c, elems[1..]) + Reached(c, elems);
    assert ReachedBoth(v, [], elems) == [] && [] + [c] == [c] && [] + x == x;
    BothSnoc(v, [], c, elems);
    hide Reached;
  }

  lemma WrapFound(p: Pattern, w: Data, elems: seq<Pattern>)
    requires w.Struct?
    ensures var v := Wrap(p, w);
            Found(v, [p] + elems)
            == if p.Dots? then Found(w, elems) + Found(After(w, elems), [p] + elems) else Found(w, elems)
  {
    var v, all := Wrap(p, w), [p] + elems;
    assert all[1..] == elems;
    hide Found, FoundEach, FoundAgain, Proper;
    FoundUnder(v, all);
    if p.Keyed? {
      OneEntryTree(p.name, p.key, w);
    } else {
      OneFieldTree(v.fields[0].name, w);
    }
    FoundOne(v, w, elems);
    FoundOne(v, w, all);
  }

  /** What is lost below an element is lost above it too. */
  lemma WrapLoses(p: Pattern, w: Data, elems: seq<Pattern>)
    requires Loses(w, elems)
    ensures Loses(Wrap(p, w), [p] + elems)
  {
    hide Found, Reached, Wrap, After, Proper;
    WrapReached(p, w, elems);
    WrapFound(p, w, elems);
    if p.Dots? {
      var all := [p] + elems;
      assert all[1..] == elems;
      MovedBounded(w, all);
      SizeBounded(Found(After(w, elems), all), Reached(w, all));
    }
  }

  /** A tree with something to find for the pattern. */
  function Holding(elems: seq<Pattern>): (r: Data)
    ensures r.Struct?
  {
    if elems == [] then Struct([]) else Wrap(elems[0], Holding(elems[1..]))
  }

  lemma {:induction false} HoldingReached(elems: seq<Pattern>)
    ensures Proper(Holding(elems)) && |Reached(Holding(elems), elems)| >= 1
  {
    if elems != [] {
      HoldingReached(elems[1..]);
      assert elems == [elems[0]] + elems[1..];
      WrapReached(elems[0], Holding(elems[1..]), elems[1..]);
      hide Reached, Wrap;
    }
  }

  /** A container with a list, and beside the list another container with the same list. */
  function Beside(name: string, e: Data): Data {
    var list := List([Field("1", e)]);
    Struct([Field(name, list), Field(name + "x", Struct([Field(name, list)]))])
  }

  lemma BesideIs(name: string, e: Data)
    requires e.Struct? && Proper(e)
    ensures var list := List([Field("1", e)]);
            var inner, outer := Struct([Field(name, list)]), Beside(name, e);
            && Proper(list) && Proper(outer) && e < list < inner < outer
            && GetAll(outer) == [list, inner] && GetAll(list) == AllChildren(list) == [e]
            && Children(outer, Name(name)) == Children(inner, Name(name)) == [e]
            && After(outer, [Name(name)]) == list
  {
    hide Proper;
    BesideProper(name, e);
    var list := List([Field("1", e)]);
    var inner, outer := Struct([Field(name, list)]), Beside(name, e);
    assert Init(outer.fields) == inner.fields && Last(outer.fields).name != name;
    assert ValueOf(inner.fields, name) == Some(list);
    assert ValueOf(outer.fields, name) == Some(list);
  }

  lemma BesideProper(name: string, e: Data)
    requires e.Struct? && Proper(e)
    ensures var list := List([Field("1", e)]);
            var inner, outer := Struct([Field(name, list)]), Beside(name, e);
            Proper(list) && Proper(outer) && e < list < inner < outer
  {
    var list := List([Field("1", e)]);
    var inner, outer := Struct([Field(name, list)]), Beside(name, e);
    assert list.entries[0].value == e && inner.fields[0].value == list;
    assert outer.fields[0].value == list && outer.fields[1].value == inner;
    assert Proper(list) && Proper(inner);
  }

  lemma BesideReached(name: string, e: Data, post: seq<Pattern>)
    requires e.Struct? && Proper(e)
    ensures |Reached(Beside(name, e), [Name(name)] + post)| == |Reached(e, post)|
    ensures |Reached(Beside(name, e), [Dots, Name(name)] + post)|
            >= |Reached(e, [Name(name)] + post)| + |Reached(e, [Dots, Name(name)] + post)| + |Reached(e, post)|
  {
    var list := List([Field("1", e)]);
    var inner, outer := Struct([Field(name, list)]), Beside(name, e);
    var rest, all := [Name(name)] + post, [Dots, Name(name)] + post;
    assert rest[1..] == post && all[1..] == rest;
    hide Reached, ReachedEach, ReachedBoth, Proper, Beside;
    BesideIs(name, e);
    ReachedNamed(inner, rest);
    ReachedNamed(outer, rest);
    ReachedOne(inner, e, post);
    ReachedOne(outer, e, post);
    ReachedWild(outer, all);
    BothOfTwo(outer, list, inner, all);
    ListReached(list, all);
    ReachedOne(list, e, rest);
    ReachedOne(list, e, all);
  }

  lemma BesideFound(name: string, e: Data, post: seq<Pattern>)
    requires e.Struct? && Proper(e)
    ensures |Found(Beside(name, e), [Name(name)] + post)| == |Found(e, post)|
    ensures var rest := [Name(name)] + post;
            var list := After(Beside(name, e), rest);
            |Found(list, [Dots] + rest)| == |Found(e, rest)| + |Found(After(e, rest), [Dots] + rest)|
  {
    var outer, rest := Beside(name, e), [Name(name)] + post;
    var all := [Dots] + rest;
    assert rest[1..] == post && all[1..] == rest && rest[0] == Name(name);
    hide Found, FoundEach, FoundAgain, Proper, Beside;
    BesideIs(name, e);
    AfterFirst(outer, rest);
    FoundUnder(outer, rest);
    FoundOne(outer, e, post);
    var list := List([Field("1", e)]);
    FoundUnder(list, all);
    FoundOne(list, e, rest);
    FoundOne(list, e, all);
  }

  /** Right below a '...' with a list name after it, the container beside the list is lost. */
  lemma BesideLoses(name: string, post: seq<Pattern>) returns (v: Data)
    ensures Loses(v, [Dots, Name(name)] + post)
  {
    var e := Holding(post);
    var outer, rest, all := Beside(name, e), [Name(name)] + post, [Dots, Name(name)] + post;
    v := Wrap(Dots, outer);
    assert all == [Dots] + rest && all[1..] == rest;
    hide Found, Reached, Holding, Proper, After, Wrap;
    HoldingReached(post);
    BesideIs(name, e);
    WrapReached(Dots, outer, rest);
    WrapFound(Dots, outer, rest);
    BesideReached(name, e, post);
    BesideFound(name, e, post);
    NeverInvents(e, post);
    SizeBounded(Found(e, post), Reached(e, post));
    NeverInvents(e, rest);
    SizeBounded(Found(e, rest), Reached(e, rest));
    MovedBounded(e, all);
    SizeBounded(Found(After(e, rest), all), Reached(e, all));
  }

  /** Wherever in a pattern a name follows right after a '...', some tree loses. */
  lemma {:induction false} NameAfterDotsLoses(elems: seq<Pattern>, i: nat) returns (v: Data)
    requires i < |elems| - 1 && elems[i].Dots? && elems[i + 1].Name?
    ensures Loses(v, elems)
  {
    if i == 0 {
      v := BesideLoses(elems[1].name, elems[2..]);
      assert elems == [Dots, elems[1]] + elems[2..];
    } else {
      v := NameAfterDotsLoses(elems[1..], i - 1);
      assert elems == [elems[0]] + elems[1..];
      WrapLoses(elems[0], v, elems[1..]);
      v := Wrap(elems[0], v);
    }
  }

  /** In the pattern a name follows right after a '...'. */
  predicate NameAfterDots(elems: seq<Pattern>) {
    exists i :: 0 <= i < |elems| - 1 && elems[i].Dots? && elems[i + 1].Name?
  }

  ghost predicate AlwaysAgree(elems: seq<Pattern>) {
    forall v :: Proper(v) && !v.List? ==> multiset(Found(v, elems)) == multiset(Reached(v, elems))
  }

  /** The two searches agree on all trees exactly for the patterns with no name right after a '...'. */
  lemma AgreeExactly(elems: seq<Pattern>)
    ensures AlwaysAgree(elems) <==> !NameAfterDots(elems)
  {
    if NameAfterDots(elems) {
      var i :| 0 <= i < |elems| - 1 && elems[i].Dots? && elems[i + 1].Name?;
      var v := NameAfterDotsLoses(elems, i);
      if AlwaysAgree(elems) {
        SizeBounded(Reached(v, elems), Found(v, elems));
      }
    } else {
      forall v | Proper(v) && !v.List?
        ensures multiset(Found(v, elems)) == multiset(Reached(v, elems))
      {
        SearchesAgree(v, elems);
      }
    }
  }
}
