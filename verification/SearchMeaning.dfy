/** What a pattern finds in the data tree: element by element, each in the terms of fields and list entries. */
module SearchMeaning {
  import opened Text
  import opened DataSearch

  /** What is found from each of these values, one after the other. */
  function FromEach(values: seq<Data>, elems: seq<Pattern>): seq<Data> {
    if values == [] then [] else FromEach(Init(values), elems) + Reached(Last(values), elems)
  }

  lemma {:induction false} FromEachConcat(a: seq<Data>, b: seq<Data>, elems: seq<Pattern>)
    ensures FromEach(a + b, elems) == FromEach(a, elems) + FromEach(b, elems)
    decreases |b|
  {
    hide *;
    if b == [] {
      assert a + b == a;
      FromNone(elems);
    } else {
      InitLast(b);
      FromEachConcat(a, Init(b), elems);
      FromSnoc(a + Init(b), Last(b), elems);
      FromSnoc(Init(b), Last(b), elems);
      ConcatAssoc(a, Init(b), [Last(b)]);
      ConcatAssoc(FromEach(a, elems), FromEach(Init(b), elems), Reached(Last(b), elems));
    }
  }

  lemma FromNone(elems: seq<Pattern>)
    ensures FromEach([], elems) == []
    ensures forall s: seq<Data> :: s + FromEach([], elems) == s
  {
  }

  lemma FromSnoc(values: seq<Data>, v: Data, elems: seq<Pattern>)
    ensures FromEach(values + [v], elems) == FromEach(values, elems) + Reached(v, elems)
  {
    hide Reached;
    assert Init(values + [v]) == values;
  }

  lemma FromOne(v: Data, elems: seq<Pattern>)
    ensures FromEach([v], elems) == Reached(v, elems)
  {
    hide Reached;
    assert Init([v]) == [] && FromEach([], elems) == [];
  }

  /** A pattern of two parts finds what the second part finds from what the first part finds, in that order. */
  lemma {:induction false} FoundInParts(v: Data, a: seq<Pattern>, b: seq<Pattern>)
    ensures Reached(v, a + b) == FromEach(Reached(v, a), b)
    decreases v, 1, 0
  {
    if v.List? {
      EachInParts(v, GetAll(v), a, b);
    } else if a == [] {
      assert a + b == b;
      FromOne(v, b);
    } else if v.Struct? || v.Slice? {
      assert (a + b)[0] == a[0] && (a + b)[1..] == a[1..] + b;
      match a[0]
      case Star => EachInParts(v, GetAll(v), a[1..], b);
      case Dots => BothInParts(v, GetAll(v), a, b);
      case _ =>
        var child := Find(v, a[0]);
        if child.Some? {
          FoundInParts(child.value, a[1..], b);
        }
    }
  }

  lemma {:induction false} EachInParts(v: Data, children: seq<Data>, a: seq<Pattern>, b: seq<Pattern>)
    requires AllBelow(children, v)
    ensures ReachedEach(v, children, a + b) == FromEach(ReachedEach(v, children, a), b)
    decreases v, 0, |children|
  {
    hide Reached;
    if children != [] {
      BelowParts(children, v);
      EachInParts(v, Init(children), a, b);
      FoundInParts(Last(children), a, b);
      FromEachConcat(ReachedEach(v, Init(children), a), Reached(Last(children), a), b);
    }
  }

  lemma {:induction false} BothInParts(v: Data, children: seq<Data>, a: seq<Pattern>, b: seq<Pattern>)
    requires a != [] && AllBelow(children, v)
    ensures ReachedBoth(v, children, a + b) == FromEach(ReachedBoth(v, children, a), b)
    decreases v, 0, |children|
  {
    hide Reached;
    if children != [] {
      var c := Last(children);
      BelowParts(children, v);
      assert (a + b)[1..] == a[1..] + b;
      BothInParts(v, Init(children), a, b);
      FoundInParts(c, a[1..], b);
      FoundInParts(c, a, b);
      FromEachConcat(Reached(c, a[1..]), Reached(c, a), b);
      FromEachConcat(ReachedBoth(v, Init(children), a), Reached(c, a[1..]) + Reached(c, a), b);
    }
  }

  // ---------------------------------------------------------------- one element

  /** The value x stands for the child c: it is the child, or an entry if the child is a list. */
  predicate StandsFor(x: Data, c: Data) {
    if c.List? then exists i :: 0 <= i < |c.entries| && x == c.entries[i].value else x == c
  }

  lemma {:induction false} EachMember(v: Data, children: seq<Data>, elems: seq<Pattern>, x: Data)
    requires AllBelow(children, v)
    ensures x in ReachedEach(v, children, elems) <==> exists i :: 0 <= i < |children| && x in Reached(children[i], elems)
    decreases |children|
  {
    hide Reached;
    if children != [] {
      BelowParts(children, v);
      EachMember(v, Init(children), elems, x);
      assert children == Init(children) + [Last(children)];
      if x in Reached(Last(children), elems) {
        assert x in Reached(children[|children| - 1], elems);
      }
    }
  }

  /** In a proper tree an empty pattern finds a value itself, and for a list its entries. */
  lemma EmptyFinds(c: Data, x: Data)
    requires Proper(c)
    ensures x in Reached(c, []) <==> StandsFor(x, c)
  {
    if c.List? {
      EachMember(c, GetAll(c), [], x);
      forall i | 0 <= i < |c.entries|
        ensures x in Reached(GetAll(c)[i], []) <==> x == c.entries[i].value
      {
        assert GetAll(c)[i] == c.entries[i].value && !c.entries[i].value.List?;
      }
    }
  }

  /** '*' finds what stands for a field of a struct. */
  lemma StarFinds(fields: seq<Field>, x: Data)
    requires Proper(Struct(fields))
    ensures x in Reached(Struct(fields), [Star]) <==> exists i :: 0 <= i < |fields| && StandsFor(x, fields[i].value)
  {
    hide *;
    var v := Struct(fields);
    FieldsOf(fields);
    StarStep(v, []);
    EachMember(v, GetAll(v), [], x);
    forall i | 0 <= i < |fields|
      ensures x in Reached(GetAll(v)[i], []) <==> StandsFor(x, fields[i].value)
    {
      FieldIsProper(fields, i);
      EmptyFinds(fields[i].value, x);
    }
  }

  lemma FieldsOf(fields: seq<Field>)
    ensures |GetAll(Struct(fields))| == |fields| && forall i :: 0 <= i < |fields| ==> GetAll(Struct(fields))[i] == fields[i].value
  {
  }

  lemma StarStep(v: Data, rest: seq<Pattern>)
    requires !v.List?
    ensures Reached(v, [Star] + rest) == ReachedEach(v, GetAll(v), rest)
    ensures [Star] + [] == [Star]
  {
    assert ([Star] + rest)[1..] == rest;
    if v.Scalar? {
      assert GetAll(v) == [];
    }
  }

  /** A name finds what stands for the field of that name; with keys it finds the entry with those keys. */
  lemma NameFinds(fields: seq<Field>, n: string, k: string, x: Data)
    requires Proper(Struct(fields))
    ensures x in Reached(Struct(fields), [Name(n)]) <==> ValueOf(fields, n).Some? && StandsFor(x, ValueOf(fields, n).value)
    ensures x in Reached(Struct(fields), [Keyed(n, k)])
            <==> && ValueOf(fields, n).Some? && ValueOf(fields, n).value.List?
                 && ValueOf(ValueOf(fields, n).value.entries, k) == Some(x)
  {
    hide *;
    NameStep(fields, n, k);
    if ValueOf(fields, n).Some? {
      var i := FieldNamed(fields, n);
      var c := fields[i].value;
      FieldIsProper(fields, i);
      EmptyFinds(c, x);
      if c.List? && ValueOf(c.entries, k).Some? {
        var j := FieldNamed(c.entries, k);
        EntryIsStruct(c, j);
        EmptyFinds(c.entries[j].value, x);
        StandsForItself(x, c.entries[j].value);
      }
    }
  }

  lemma FieldNamed(fields: seq<Field>, n: string) returns (i: nat)
    requires ValueOf(fields, n).Some?
    ensures i < |fields| && ValueOf(fields, n).value == fields[i].value && fields[i].name == n
  {
    i :| 0 <= i < |fields| && ValueOf(fields, n).value == fields[i].value && fields[i].name == n;
  }

  lemma EntryIsStruct(c: Data, j: nat)
    requires Proper(c) && c.List? && j < |c.entries|
    ensures c.entries[j].value.Struct? && Proper(c.entries[j].value)
  {
  }

  lemma StandsForItself(x: Data, c: Data)
    requires !c.List?
    ensures StandsFor(x, c) <==> x == c
  {
  }

  lemma NameStep(fields: seq<Field>, n: string, k: string)
    ensures var v, f := Struct(fields), ValueOf(fields, n);
            && Reached(v, [Name(n)]) == (if f.None? then [] else Reached(f.value, []))
            && Reached(v, [Keyed(n, k)])
               == (if f.None? || !f.value.List? || ValueOf(f.value.entries, k).None? then []
                   else Reached(ValueOf(f.value.entries, k).value, []))
  {
    assert [Name(n)][1..] == [] && [Keyed(n, k)][1..] == [];
    hide ValueOf;
  }

  lemma FieldIsProper(fields: seq<Field>, i: nat)
    requires i < |fields| && Proper(Struct(fields))
    ensures Proper(fields[i].value)
  {
  }

  function Stars(n: nat): seq<Pattern> {
    if n == 0 then [] else [Star] + Stars(n - 1)
  }

  /** Some number of '*', one or more, finds x. */
  ghost predicate Deep(v: Data, x: Data) {
    exists n :: n >= 1 && x in Reached(v, Stars(n))
  }

  lemma DeepIf(v: Data, x: Data, n: nat)
    requires n >= 1 && x in Reached(v, Stars(n))
    ensures Deep(v, x)
  {
  }

  lemma DeepBy(v: Data, x: Data) returns (n: nat)
    requires Deep(v, x)
    ensures n >= 1 && x in Reached(v, Stars(n))
  {
    n :| n >= 1 && x in Reached(v, Stars(n));
  }

  /** '...' finds exactly what some number of '*' finds, one or more. */
  lemma {:induction false} DotsAreStars(v: Data, x: Data)
    ensures x in Reached(v, [Dots]) <==> Deep(v, x)
    decreases v
  {
    forall i | 0 <= i < |GetAll(v)|
      ensures x in Reached(GetAll(v)[i], [Dots]) <==> Deep(GetAll(v)[i], x)
    {
      DotsAreStars(GetAll(v)[i], x);
    }
    hide Reached, Stars, GetAll;
    if v.List? {
      SomeEntry(v, x);
    } else {
      SomeChild(v, x);
    }
  }

  lemma ListStep(v: Data, elems: seq<Pattern>)
    requires v.List?
    ensures Reached(v, elems) == ReachedEach(v, GetAll(v), elems)
  {
  }

  lemma SomeEntry(v: Data, x: Data)
    requires v.List? && forall i :: 0 <= i < |GetAll(v)| ==> (x in Reached(GetAll(v)[i], [Dots]) <==> Deep(GetAll(v)[i], x))
    ensures x in Reached(v, [Dots]) <==> Deep(v, x)
  {
    hide *;
    ListStep(v, [Dots]);
    EachMember(v, GetAll(v), [Dots], x);
    if x in Reached(v, [Dots]) {
      var i :| 0 <= i < |GetAll(v)| && x in Reached(GetAll(v)[i], [Dots]);
      var n := DeepBy(GetAll(v)[i], x);
      ListStep(v, Stars(n));
      EachMember(v, GetAll(v), Stars(n), x);
      DeepIf(v, x, n);
    }
    if Deep(v, x) {
      var n := DeepBy(v, x);
      ListStep(v, Stars(n));
      EachMember(v, GetAll(v), Stars(n), x);
      var i :| 0 <= i < |GetAll(v)| && x in Reached(GetAll(v)[i], Stars(n));
      DeepIf(GetAll(v)[i], x, n);
    }
  }

  lemma {:induction false} BothMember(v: Data, children: seq<Data>, elems: seq<Pattern>, x: Data)
    requires elems != [] && AllBelow(children, v)
    ensures x in ReachedBoth(v, children, elems)
            <==> exists i :: 0 <= i < |children| && (x in Reached(children[i], elems[1..]) || x in Reached(children[i], elems))
    decreases |children|
  {
    hide Reached;
    if children != [] {
      BelowParts(children, v);
      BothMember(v, Init(children), elems, x);
      assert children == Init(children) + [Last(children)];
      var i := |children| - 1;
      assert children[i] == Last(children);
    }
  }

  lemma SomeChild(v: Data, x: Data)
    requires !v.List? && forall i :: 0 <= i < |GetAll(v)| ==> (x in Reached(GetAll(v)[i], [Dots]) <==> Deep(GetAll(v)[i], x))
    ensures x in Reached(v, [Dots]) <==> Deep(v, x)
  {
    hide *;
    DotsStep(v);
    BothMember(v, GetAll(v), [Dots], x);
    assert [Dots][1..] == [];
    NoStars();
    if x in Reached(v, [Dots]) {
      var i :| 0 <= i < |GetAll(v)| && (x in Reached(GetAll(v)[i], []) || x in Reached(GetAll(v)[i], [Dots]));
      if x in Reached(GetAll(v)[i], []) {
        StarsFind(v, x, 1);
        DeepIf(v, x, 1);
      } else {
        var n := DeepBy(GetAll(v)[i], x);
        StarsFind(v, x, n + 1);
        DeepIf(v, x, n + 1);
      }
    }
    if Deep(v, x) {
      var n := DeepBy(v, x);
      StarsFind(v, x, n);
      var i :| 0 <= i < |GetAll(v)| && x in Reached(GetAll(v)[i], Stars(n - 1));
      if n > 1 {
        DeepIf(GetAll(v)[i], x, n - 1);
      }
    }
  }

  lemma DotsStep(v: Data)
    requires !v.List?
    ensures Reached(v, [Dots]) == ReachedBoth(v, GetAll(v), [Dots])
  {
    if v.Scalar? {
      assert GetAll(v) == [];
    }
  }

  lemma NoStars()
    ensures Stars(0) == []
  {
  }

  lemma StarsFind(v: Data, x: Data, n: nat)
    requires !v.List? && n >= 1
    ensures x in Reached(v, Stars(n)) <==> exists i :: 0 <= i < |GetAll(v)| && x in Reached(GetAll(v)[i], Stars(n - 1))
  {
    hide Reached, GetAll;
    StarStep(v, Stars(n - 1));
    EachMember(v, GetAll(v), Stars(n - 1), x);
  }
}
