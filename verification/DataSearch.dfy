/** The two searches of the data tree (gnmi/model/utilities.go): findAllData, whose cursors are rewritten on the
    way, and findAllDataNodes. Pointers are followed silently; what ydb does with a value (all its children, the
    child of a name or of a name with all its keys) is stated here. */
module DataSearch {
  import opened Text

  datatype Data =
    | Scalar(text: string)
    | Struct(fields: seq<Field>)
    | List(entries: seq<Field>)
    | Slice(items: seq<Data>)

  /** A field of a struct under its name, or an entry of a list under the text of its keys. */
  datatype Field = Field(name: string, value: Data)

  /** An element of a pattern: '*', '...', a name, or a name with all keys of a list entry. */
  datatype Pattern = Star | Dots | Name(name: string) | Keyed(name: string, key: string)

  function ValueOf(fields: seq<Field>, name: string): (r: Option<Data>)
    ensures r.Some? ==> exists i :: 0 <= i < |fields| && r.value == fields[i].value && fields[i].name == name
  {
    if fields == [] then None
    else if Last(fields).name == name then Some(Last(fields).value)
    else ValueOf(Init(fields), name)
  }

  /** ydb.ValFind */
  function Find(v: Data, p: Pattern): (r: Option<Data>)
    requires p.Name? || p.Keyed?
    ensures r.Some? ==> r.value < v
  {
    if !v.Struct? then None
    else
      var field := ValueOf(v.fields, p.name);
      if p.Name? || field.None? then field
      else if field.value.List? then ValueOf(field.value.entries, p.key)
      else None
  }

  function FieldValues(fields: seq<Field>): (r: seq<Data>)
    ensures |r| == |fields| && forall i :: 0 <= i < |r| ==> r[i] == fields[i].value
  {
    seq(|fields|, i requires 0 <= i < |fields| => fields[i].value)
  }

  /** These are proper parts of v. */
  ghost predicate AllBelow(children: seq<Data>, v: Data) {
    forall i :: 0 <= i < |children| ==> children[i] < v
  }

  /** ydb.ValGetAll: a list is one child. */
  function GetAll(v: Data): (r: seq<Data>)
    ensures AllBelow(r, v)
  {
    match v
    case Scalar(_) => []
    case Struct(fields) => FieldValues(fields)
    case List(entries) => FieldValues(entries)
    case Slice(items) => items
  }

  function PlainFields(fields: seq<Field>): (r: seq<Data>)
    ensures forall j :: 0 <= j < |r| ==> exists i :: 0 <= i < |fields| && r[j] == fields[i].value
  {
    if fields == [] then []
    else PlainFields(Init(fields)) + if Last(fields).value.List? then [] else [Last(fields).value]
  }

  function ListEntries(fields: seq<Field>): (r: seq<Data>)
    ensures forall j :: 0 <= j < |r| ==> exists i :: 0 <= i < |fields| && r[j] < fields[i].value
  {
    if fields == [] then []
    else ListEntries(Init(fields)) + if Last(fields).value.List? then FieldValues(Last(fields).value.entries) else []
  }

  /** getAllChildren: the entries of a list stand for the list, after the other children. */
  function AllChildren(v: Data): (r: seq<Data>)
    ensures AllBelow(r, v)
  {
    if v.Struct? then PlainFields(v.fields) + ListEntries(v.fields) else GetAll(v)
  }

  /** findChildren: the entries of a list stand for the list. */
  function Children(v: Data, p: Pattern): (r: seq<Data>)
    requires p.Name? || p.Keyed?
    ensures AllBelow(r, v)
  {
    match Find(v, p)
    case None => []
    case Some(child) => if child.List? then FieldValues(child.entries) else [child]
  }

  /** What the search makes of its own cursor: looking for a list leaves the cursor at that list. */
  function After(v: Data, elems: seq<Pattern>): (r: Data)
    ensures r == v || r < v
  {
    if elems == [] || elems[0].Star? || elems[0].Dots? then v
    else
      var child := Find(v, elems[0]);
      if child.Some? && child.value.List? then child.value else v
  }

  /** findAllData, as a function of the value at the cursor. */
  function Found(v: Data, elems: seq<Pattern>): seq<Data>
    decreases v, 1, 0
  {
    if elems == [] then [v]
    else if v.Scalar? then []
    else
      match elems[0]
      case Star => FoundEach(v, AllChildren(v), elems[1..])
      case Dots => FoundEach(v, AllChildren(v), elems[1..]) + FoundAgain(v, AllChildren(v), elems)
      case _ => FoundEach(v, Children(v, elems[0]), elems[1..])
  }

  function FoundEach(v: Data, children: seq<Data>, elems: seq<Pattern>): seq<Data>
    requires AllBelow(children, v)
    decreases v, 0, |children|
  {
    if children == [] then []
    else FoundEach(v, Init(children), elems) + Found(Last(children), elems)
  }

  /** The second loop under '...' reuses the cursors of the first one. */
  function FoundAgain(v: Data, children: seq<Data>, elems: seq<Pattern>): seq<Data>
    requires elems != [] && AllBelow(children, v)
    decreases v, 0, |children|
  {
    if children == [] then []
    else FoundAgain(v, Init(children), elems) + Found(After(Last(children), elems[1..]), elems)
  }

  /** findAllDataNodes */
  function Reached(v: Data, elems: seq<Pattern>): seq<Data>
    decreases v, 1, 0
  {
    if v.List? then ReachedEach(v, GetAll(v), elems)
    else if elems == [] then [v]
    else if v.Scalar? then []
    else
      match elems[0]
      case Star => ReachedEach(v, GetAll(v), elems[1..])
      case Dots => ReachedBoth(v, GetAll(v), elems)
      case _ =>
        var child := Find(v, elems[0]);
        if child.None? then [] else Reached(child.value, elems[1..])
  }

  function ReachedEach(v: Data, children: seq<Data>, elems: seq<Pattern>): seq<Data>
    requires AllBelow(children, v)
    decreases v, 0, |children|
  {
    if children == [] then []
    else ReachedEach(v, Init(children), elems) + Reached(Last(children), elems)
  }

  function ReachedBoth(v: Data, children: seq<Data>, elems: seq<Pattern>): seq<Data>
    requires elems != [] && AllBelow(children, v)
    decreases v, 0, |children|
  {
    if children == [] then []
    else
      var c := Last(children);
      ReachedBoth(v, Init(children), elems) + (Reached(c, elems[1..]) + Reached(c, elems))
  }

  // ---------------------------------------------------------------- the two searches agree

  /** Somewhere in the tree there is a list of this name. */
  predicate HasList(v: Data, name: string) {
    match v
    case Scalar(_) => false
    case Struct(fields) =>
      exists i :: 0 <= i < |fields| && ((fields[i].name == name && fields[i].value.List?) || HasList(fields[i].value, name))
    case List(entries) => exists i :: 0 <= i < |entries| && HasList(entries[i].value, name)
    case Slice(items) => exists i :: 0 <= i < |items| && HasList(items[i], name)
  }

  /** The element right after a '...' is no list name. */
  ghost predicate NoListAfterDots(v: Data, elems: seq<Pattern>) {
    forall i :: 0 <= i < |elems| - 1 && elems[i].Dots? && elems[i + 1].Name? ==> !HasList(v, elems[i + 1].name)
  }

  /** List entries are structs, and no slice holds lists. */
  predicate Proper(v: Data) {
    match v
    case Scalar(_) => true
    case Struct(fields) => forall i :: 0 <= i < |fields| ==> Proper(fields[i].value)
    case List(entries) => forall i :: 0 <= i < |entries| ==> entries[i].value.Struct? && Proper(entries[i].value)
    case Slice(items) => forall i :: 0 <= i < |items| ==> !items[i].List? && Proper(items[i])
  }

  /** What a part of the tree keeps of the conditions on the whole. */
  ghost predicate PartOf(c: Data, v: Data) {
    && (Proper(v) ==> Proper(c) && !c.List?)
    && forall name :: HasList(c, name) ==> HasList(v, name)
  }

  ghost predicate AllPartsOf(children: seq<Data>, v: Data) {
    forall i :: 0 <= i < |children| ==> PartOf(children[i], v)
  }

  lemma EntryPart(entries: seq<Field>, i: nat)
    requires i < |entries|
    ensures PartOf(entries[i].value, List(entries))
  {
  }

  lemma FieldHasList(fields: seq<Field>, i: nat, name: string)
    requires i < |fields| && HasList(fields[i].value, name)
    ensures HasList(Struct(fields), name)
  {
  }

  lemma FieldProper(fields: seq<Field>, i: nat)
    requires i < |fields| && Proper(Struct(fields))
    ensures Proper(fields[i].value)
  {
  }

  lemma FieldPart(fields: seq<Field>, i: nat)
    requires i < |fields| && !fields[i].value.List?
    ensures PartOf(fields[i].value, Struct(fields))
  {
    forall name | HasList(fields[i].value, name)
      ensures HasList(Struct(fields), name)
    {
      FieldHasList(fields, i, name);
    }
    if Proper(Struct(fields)) {
      FieldProper(fields, i);
    }
  }

  lemma FieldEntryPart(fields: seq<Field>, i: nat, k: nat)
    requires i < |fields| && fields[i].value.List? && k < |fields[i].value.entries|
    ensures PartOf(fields[i].value.entries[k].value, Struct(fields))
  {
    var entries := fields[i].value.entries;
    EntryPart(entries, k);
    forall name | HasList(entries[k].value, name)
      ensures HasList(Struct(fields), name)
    {
      FieldHasList(fields, i, name);
    }
    if Proper(Struct(fields)) {
      FieldProper(fields, i);
    }
  }

  lemma {:induction false} PlainParts(fields: seq<Field>, n: nat)
    requires n <= |fields|
    ensures AllPartsOf(PlainFields(fields[..n]), Struct(fields))
    ensures AllPartsOf(ListEntries(fields[..n]), Struct(fields))
  {
    hide *;
    var v := Struct(fields);
    if n == 0 {
      NoParts(v);
      NoneListed(fields, []);
    } else {
      var last := fields[n - 1].value;
      PlainParts(fields, n - 1);
      FieldsSnoc(fields, n);
      LastParts(fields, n - 1);
      if last.List? {
        PartsConcat(ListEntries(fields[..n - 1]), FieldValues(last.entries), v);
      } else {
        PartsConcat(PlainFields(fields[..n - 1]), [last], v);
      }
    }
  }

  lemma LastParts(fields: seq<Field>, i: nat)
    requires i < |fields|
    ensures var last := fields[i].value;
            AllPartsOf(if last.List? then FieldValues(last.entries) else [last], Struct(fields))
  {
    hide PartOf;
    var last := fields[i].value;
    if last.List? {
      forall k | 0 <= k < |last.entries|
        ensures PartOf(FieldValues(last.entries)[k], Struct(fields))
      {
        FieldEntryPart(fields, i, k);
      }
    } else {
      FieldPart(fields, i);
    }
  }

  lemma NoParts(v: Data)
    ensures AllPartsOf([], v)
  {
  }

  lemma PartsConcat(a: seq<Data>, b: seq<Data>, v: Data)
    requires AllPartsOf(a, v) && AllPartsOf(b, v)
    ensures AllPartsOf(a + b, v)
  {
    hide PartOf;
  }

  lemma AllChildrenParts(v: Data)
    requires !v.List?
    ensures AllPartsOf(AllChildren(v), v)
  {
    match v
    case Scalar(_) =>
    case Struct(fields) =>
      PlainParts(fields, |fields|);
      assert fields[..|fields|] == fields;
    case List(_) =>
    case Slice(items) =>
  }

  lemma ChildrenParts(v: Data, p: Pattern)
    requires (p.Name? || p.Keyed?) && Proper(v)
    ensures AllPartsOf(Children(v, p), v)
  {
    if v.Struct? && ValueOf(v.fields, p.name).Some? {
      var i :| 0 <= i < |v.fields| && ValueOf(v.fields, p.name).value == v.fields[i].value;
      FieldProper(v.fields, i);
      var field := v.fields[i].value;
      if field.List? {
        forall k | 0 <= k < |field.entries|
          ensures PartOf(field.entries[k].value, v)
        {
          FieldEntryPart(v.fields, i, k);
        }
      } else {
        FieldPart(v.fields, i);
      }
      hide PartOf, HasList;
    }
  }

  lemma PartKeeps(c: Data, v: Data, elems: seq<Pattern>)
    requires PartOf(c, v) && NoListAfterDots(v, elems)
    ensures NoListAfterDots(c, elems) && (elems != [] ==> NoListAfterDots(c, elems[1..]))
  {
    if elems != [] {
      var rest := elems[1..];
      forall i | 0 <= i < |rest| - 1 && rest[i].Dots? && rest[i + 1].Name?
        ensures !HasList(c, rest[i + 1].name)
      {
        assert elems[i + 1].Dots? && elems[i + 1 + 1].Name?;
      }
    }
  }

  /** Under a '...' that no list name follows, the search leaves its cursors alone. */
  lemma CursorStays(c: Data, elems: seq<Pattern>)
    requires elems != [] && elems[0].Dots? && NoListAfterDots(c, elems) && Proper(c)
    ensures After(c, elems[1..]) == c
  {
    var rest := elems[1..];
    if rest != [] && (rest[0].Name? || rest[0].Keyed?) {
      var child := Find(c, rest[0]);
      if child.Some? {
        var i :| 0 <= i < |c.fields| && ValueOf(c.fields, rest[0].name).value == c.fields[i].value && c.fields[i].name == rest[0].name;
        FieldProper(c.fields, i);
        assert elems[0 + 1] == rest[0];
      }
    }
  }

  lemma ReachedSnoc(v: Data, a: seq<Data>, c: Data, elems: seq<Pattern>)
    requires AllBelow(a, v) && c < v
    ensures AllBelow(a + [c], v)
    ensures ReachedEach(v, a + [c], elems) == ReachedEach(v, a, elems) + Reached(c, elems)
  {
    hide Reached;
    assert Init(a + [c]) == a;
  }

  lemma {:induction false} ReachedEachConcat(v: Data, a: seq<Data>, b: seq<Data>, elems: seq<Pattern>)
    requires AllBelow(a, v) && AllBelow(b, v)
    ensures AllBelow(a + b, v)
    ensures ReachedEach(v, a + b, elems) == ReachedEach(v, a, elems) + ReachedEach(v, b, elems)
  {
    if b == [] {
      assert a + b == a;
      assert ReachedEach(v, a, elems) + [] == ReachedEach(v, a, elems);
    } else {
      var front, last := Init(b), Last(b);
      assert b == front + [last] && a + b == a + front + [last];
      ReachedEachConcat(v, a, front, elems);
      ReachedSnoc(v, a + front, last, elems);
      ReachedSnoc(v, front, last, elems);
      ConcatAssoc(ReachedEach(v, a, elems), ReachedEach(v, front, elems), Reached(last, elems));
      hide *;
    }
  }

  lemma {:induction false} SameBound(v: Data, w: Data, children: seq<Data>, elems: seq<Pattern>)
    requires AllBelow(children, v) && AllBelow(children, w)
    ensures ReachedEach(v, children, elems) == ReachedEach(w, children, elems)
  {
    if children != [] {
      SameBound(v, w, Init(children), elems);
    }
  }

  lemma ReachedOne(v: Data, c: Data, elems: seq<Pattern>)
    requires c < v
    ensures ReachedEach(v, [c], elems) == Reached(c, elems)
  {
    assert Init([c]) == [] && ReachedEach(v, [], elems) == [];
  }

  lemma FieldsBelow(fields: seq<Field>, n: nat)
    requires n <= |fields|
    ensures AllBelow(PlainFields(fields[..n]), Struct(fields)) && AllBelow(ListEntries(fields[..n]), Struct(fields))
    ensures AllBelow(FieldValues(fields[..n]), Struct(fields))
  {
    assert forall i :: 0 <= i < n ==> fields[..n][i] == fields[i];
  }

  /** To the second search, the entries of the lists are the same as the lists, up to the order. */
  lemma {:induction false} ListsExpanded(fields: seq<Field>, n: nat, elems: seq<Pattern>)
    requires n <= |fields|
    ensures AllBelow(PlainFields(fields[..n]), Struct(fields)) && AllBelow(ListEntries(fields[..n]), Struct(fields))
    ensures AllBelow(FieldValues(fields[..n]), Struct(fields))
    ensures multiset(ReachedEach(Struct(fields), FieldValues(fields[..n]), elems))
            == multiset(ReachedEach(Struct(fields), PlainFields(fields[..n]), elems))
               + multiset(ReachedEach(Struct(fields), ListEntries(fields[..n]), elems))
  {
    FieldsBelow(fields, n);
    hide *;
    if n == 0 {
      NoneListed(fields, elems);
    } else {
      var v, last := Struct(fields), fields[n - 1].value;
      var plain, listed, all := PlainFields(fields[..n - 1]), ListEntries(fields[..n - 1]), FieldValues(fields[..n - 1]);
      ListsExpanded(fields, n - 1, elems);
      FieldsSnoc(fields, n);
      ReachedSnoc(v, all, last, elems);
      MoreOnBothSides(ReachedEach(v, all, elems), ReachedEach(v, plain, elems), ReachedEach(v, listed, elems), Reached(last, elems));
      if last.List? {
        ReachedList(v, last, elems);
        ReachedEachConcat(v, listed, FieldValues(last.entries), elems);
      } else {
        ReachedSnoc(v, plain, last, elems);
      }
    }
  }

  lemma NoneListed(fields: seq<Field>, elems: seq<Pattern>)
    ensures FieldValues(fields[..0]) == [] && PlainFields(fields[..0]) == [] && ListEntries(fields[..0]) == []
    ensures AllBelow([], Struct(fields)) && ReachedEach(Struct(fields), [], elems) == []
  {
  }

  lemma FieldsSnoc(fields: seq<Field>, n: nat)
    requires 0 < n <= |fields|
    ensures var last := fields[n - 1].value;
            && FieldValues(fields[..n]) == FieldValues(fields[..n - 1]) + [last]
            && PlainFields(fields[..n]) == (if last.List? then PlainFields(fields[..n - 1]) else PlainFields(fields[..n - 1]) + [last])
            && ListEntries(fields[..n])
               == (if last.List? then ListEntries(fields[..n - 1]) + FieldValues(last.entries) else ListEntries(fields[..n - 1]))
  {
    assert Init(fields[..n]) == fields[..n - 1];
  }

  lemma MoreOnBothSides<T>(all: seq<T>, a: seq<T>, b: seq<T>, more: seq<T>)
    requires multiset(all) == multiset(a) + multiset(b)
    ensures multiset(all + more) == multiset(a + more) + multiset(b) == multiset(a) + multiset(b + more)
  {
  }

  lemma ReachedList(v: Data, list: Data, elems: seq<Pattern>)
    requires list.List? && list < v
    ensures AllBelow(FieldValues(list.entries), v)
    ensures Reached(list, elems) == ReachedEach(v, FieldValues(list.entries), elems)
  {
    SameBound(v, list, FieldValues(list.entries), elems);
  }

  /** So all children and the children with the lists taken apart are reached alike. */
  lemma ChildrenReached(v: Data, elems: seq<Pattern>)
    requires !v.List?
    ensures multiset(ReachedEach(v, GetAll(v), elems)) == multiset(ReachedEach(v, AllChildren(v), elems))
  {
    if v.Struct? {
      var fields := v.fields;
      assert fields[..|fields|] == fields;
      ListsExpanded(fields, |fields|, elems);
      assert GetAll(v) == FieldValues(fields);
      ReachedEachConcat(v, PlainFields(fields), ListEntries(fields), elems);
    }
  }

  lemma BothSnoc(v: Data, a: seq<Data>, c: Data, elems: seq<Pattern>)
    requires elems != [] && AllBelow(a, v) && c < v
    ensures AllBelow(a + [c], v)
    ensures ReachedBoth(v, a + [c], elems) == ReachedBoth(v, a, elems) + (Reached(c, elems[1..]) + Reached(c, elems))
  {
    hide Reached;
    assert Init(a + [c]) == a;
  }

  lemma {:induction false} BothSplit(v: Data, children: seq<Data>, elems: seq<Pattern>)
    requires elems != [] && AllBelow(children, v)
    ensures multiset(ReachedBoth(v, children, elems))
            == multiset(ReachedEach(v, children, elems[1..])) + multiset(ReachedEach(v, children, elems))
  {
    hide Reached, ReachedEach, ReachedBoth, AllBelow;
    NoneReached(v, elems);
    if children != [] {
      var front, c, rest := Init(children), Last(children), elems[1..];
      InitLast(children);
      BelowParts(children, v);
      BothSplit(v, front, elems);
      BothSnoc(v, front, c, elems);
      ReachedSnoc(v, front, c, rest);
      ReachedSnoc(v, front, c, elems);
    }
  }

  lemma NoneReached(v: Data, elems: seq<Pattern>)
    requires elems != []
    ensures AllBelow([], v) && ReachedBoth(v, [], elems) == [] == ReachedEach(v, [], elems) == ReachedEach(v, [], elems[1..])
  {
  }

  lemma BelowParts(children: seq<Data>, v: Data)
    requires children != [] && AllBelow(children, v)
    ensures AllBelow(Init(children), v) && Last(children) < v
  {
  }

  lemma {:induction false} EachAgrees(v: Data, children: seq<Data>, elems: seq<Pattern>)
    requires AllBelow(children, v)
    requires forall i :: 0 <= i < |children| ==>
      Proper(children[i]) && !children[i].List? && NoListAfterDots(children[i], elems)
    ensures multiset(FoundEach(v, children, elems)) == multiset(ReachedEach(v, children, elems))
    decreases v, 0, |children|
  {
    if children != [] {
      EachAgrees(v, Init(children), elems);
      SearchesAgree(Last(children), elems);
      hide Found, Reached, NoListAfterDots;
    }
  }

  lemma {:induction false} AgainAgrees(v: Data, children: seq<Data>, elems: seq<Pattern>)
    requires AllBelow(children, v) && elems != [] && elems[0].Dots?
    requires forall i :: 0 <= i < |children| ==>
      Proper(children[i]) && !children[i].List? && NoListAfterDots(children[i], elems)
    ensures multiset(FoundAgain(v, children, elems)) == multiset(ReachedEach(v, children, elems))
    decreases v, 0, |children|
  {
    if children != [] {
      AgainAgrees(v, Init(children), elems);
      SearchesAgree(Last(children), elems);
      CursorStays(Last(children), elems);
      hide Found, Reached, NoListAfterDots, After;
    }
  }

  lemma PartsKeep(v: Data, children: seq<Data>, elems: seq<Pattern>)
    requires AllPartsOf(children, v) && Proper(v) && NoListAfterDots(v, elems) && elems != []
    ensures forall i :: 0 <= i < |children| ==>
      && Proper(children[i]) && !children[i].List?
      && NoListAfterDots(children[i], elems) && NoListAfterDots(children[i], elems[1..])
  {
    forall i | 0 <= i < |children|
      ensures Proper(children[i]) && !children[i].List?
      ensures NoListAfterDots(children[i], elems) && NoListAfterDots(children[i], elems[1..])
    {
      assert PartOf(children[i], v);
      PartKeeps(children[i], v, elems);
    }
  }

  lemma ReachedUnder(v: Data, elems: seq<Pattern>)
    requires v.Struct? && elems != []
    ensures elems[0].Dots? ==> Reached(v, elems) == ReachedBoth(v, GetAll(v), elems)
    ensures elems[0].Name? || elems[0].Keyed? ==>
      Reached(v, elems) == if Find(v, elems[0]).Some? then Reached(Find(v, elems[0]).value, elems[1..]) else []
  {
  }

  lemma FoundUnder(v: Data, elems: seq<Pattern>)
    requires !v.Scalar? && elems != []
    ensures elems[0].Star? ==> Found(v, elems) == FoundEach(v, AllChildren(v), elems[1..])
    ensures elems[0].Dots? ==>
      Found(v, elems) == FoundEach(v, AllChildren(v), elems[1..]) + FoundAgain(v, AllChildren(v), elems)
    ensures elems[0].Name? || elems[0].Keyed? ==> Found(v, elems) == FoundEach(v, Children(v, elems[0]), elems[1..])
  {
  }

  /** What findChildren gives and where it leaves the cursor. */
  lemma ChildrenAre(v: Data, p: Pattern)
    requires p.Name? || p.Keyed?
    ensures var child := Find(v, p);
            && Children(v, p) == (if child.None? then [] else if child.value.List? then AllChildren(child.value) else [child.value])
            && After(v, [p]) == (if child.Some? && child.value.List? then child.value else v)
  {
  }

  lemma NamedAgrees(v: Data, elems: seq<Pattern>)
    requires Proper(v) && v.Struct? && NoListAfterDots(v, elems) && elems != [] && (elems[0].Name? || elems[0].Keyed?)
    requires multiset(FoundEach(v, Children(v, elems[0]), elems[1..])) == multiset(ReachedEach(v, Children(v, elems[0]), elems[1..]))
    ensures multiset(Found(v, elems)) == multiset(Reached(v, elems))
  {
    var child, rest := Find(v, elems[0]), elems[1..];
    ReachedUnder(v, elems);
    FoundUnder(v, elems);
    ChildrenAre(v, elems[0]);
    hide Found, Reached, Children, Find;
    if child.Some? {
      if child.value.List? {
        ReachedList(v, child.value, rest);
      } else {
        ReachedOne(v, child.value, rest);
      }
    }
  }

  /** Both searches find the same values, each one as often, whatever their order: for every tree and every
      pattern with no list name right after a '...'. */
  lemma {:induction false} SearchesAgree(v: Data, elems: seq<Pattern>)
    requires Proper(v) && !v.List? && NoListAfterDots(v, elems)
    ensures multiset(Found(v, elems)) == multiset(Reached(v, elems))
    decreases v, 1, 0
  {
    if elems != [] && !v.Scalar? {
      var rest := elems[1..];
      if elems[0].Star? || elems[0].Dots? {
        var children := AllChildren(v);
        AllChildrenParts(v);
        PartsKeep(v, children, elems);
        EachAgrees(v, children, rest);
        ChildrenReached(v, rest);
        if elems[0].Dots? {
          AgainAgrees(v, children, elems);
          ChildrenReached(v, elems);
          BothSplit(v, GetAll(v), elems);
        }
      } else if v.Struct? {
        var children := Children(v, elems[0]);
        ChildrenParts(v, elems[0]);
        PartsKeep(v, children, elems);
        EachAgrees(v, children, rest);
        NamedAgrees(v, elems);
      }
    }
  }

  // ---------------------------------------------------------------- a list name right after '...'

  const EMPTY := Struct([])
  const LIST := List([Field("1", EMPTY)])
  const INNER := Struct([Field("list", LIST)])
  const OUTER := Struct([Field("list", LIST), Field("inner", INNER)])
  const WHOLE := Struct([Field("outer", OUTER)])

  lemma FindList()
    ensures Find(EMPTY, Name("list")) == None && Find(LIST, Name("list")) == None
    ensures Find(INNER, Name("list")) == Some(LIST) && Find(OUTER, Name("list")) == Some(LIST)
  {
    assert Init(INNER.fields) == [] && Init(OUTER.fields) == INNER.fields;
  }

  lemma EmptyReached(elems: seq<Pattern>)
    requires elems == [Name("list")] || elems == [Dots, Name("list")]
    ensures Reached(EMPTY, elems) == [] && Reached(LIST, elems) == [] && Reached(LIST, []) == [EMPTY]
  {
    FindList();
    assert GetAll(EMPTY) == [];
    ReachedUnder(EMPTY, elems);
    assert GetAll(LIST) == [EMPTY] && LIST.entries[0].value == EMPTY;
    ReachedOne(LIST, EMPTY, elems);
    ReachedOne(LIST, EMPTY, []);
  }

  lemma NamedReached(v: Data)
    requires v.Struct? && Find(v, Name("list")) == Some(LIST)
    ensures Reached(v, [Name("list")]) == [EMPTY]
  {
    var rest := [Name("list")];
    assert rest[1..] == [];
    EmptyReached(rest);
    ReachedUnder(v, rest);
  }

  lemma InnerReached()
    ensures Reached(INNER, [Name("list")]) == [EMPTY] && Reached(INNER, [Dots, Name("list")]) == []
  {
    var elems := [Dots, Name("list")];
    assert elems[1..] == [Name("list")];
    FindList();
    NamedReached(INNER);
    EmptyReached(elems);
    EmptyReached(elems[1..]);
    ReachedUnder(INNER, elems);
    assert GetAll(INNER) == [] + [LIST] && INNER.fields[0].value == LIST;
    hide Reached;
    BothSnoc(INNER, [], LIST, elems);
  }

  lemma OuterReached()
    ensures Reached(OUTER, [Name("list")]) == [EMPTY] && Reached(OUTER, [Dots, Name("list")]) == [EMPTY]
  {
    hide Reached;
    var elems := [Dots, Name("list")];
    assert elems[1..] == [Name("list")];
    FindList();
    NamedReached(OUTER);
    InnerReached();
    EmptyReached(elems);
    EmptyReached(elems[1..]);
    ReachedUnder(OUTER, elems);
    assert GetAll(OUTER) == [LIST, INNER];
    assert OUTER.fields[0].value == LIST && OUTER.fields[1].value == INNER;
    BothOfTwo(OUTER, LIST, INNER, elems);
  }

  lemma BothOfTwo(v: Data, c: Data, d: Data, elems: seq<Pattern>)
    requires elems != [] && c < v && d < v
    ensures ReachedBoth(v, [c, d], elems)
            == (Reached(c, elems[1..]) + Reached(c, elems)) + (Reached(d, elems[1..]) + Reached(d, elems))
  {
    assert [c] == [] + [c] && [c, d] == [c] + [d] && ReachedBoth(v, [], elems) == [];
    var x := Reached(c, elems[1..]) + Reached(c, elems);
    hide Reached, ReachedBoth;
    assert [] + x == x;
    BothSnoc(v, [], c, elems);
    BothSnoc(v, [c], d, elems);
  }

  lemma FoundOne(v: Data, c: Data, elems: seq<Pattern>)
    requires c < v
    ensures FoundEach(v, [c], elems) == Found(c, elems)
    ensures elems != [] ==> FoundAgain(v, [c], elems) == Found(After(c, elems[1..]), elems)
  {
    hide Found;
    assert Init([c]) == [] && FoundEach(v, [], elems) == [];
  }

  lemma EmptyFound()
    ensures Found(EMPTY, [Name("list")]) == [] && Found(EMPTY, [Dots, Name("list")]) == []
    ensures After(EMPTY, [Name("list")]) == EMPTY
  {
    FindList();
    assert AllChildren(EMPTY) == [] && Children(EMPTY, Name("list")) == [];
    FoundUnder(EMPTY, [Name("list")]);
    FoundUnder(EMPTY, [Dots, Name("list")]);
    hide Found;
  }

  lemma OuterFound()
    ensures Found(OUTER, [Name("list")]) == [EMPTY] && After(OUTER, [Name("list")]) == LIST
  {
    var rest := [Name("list")];
    FindList();
    ChildrenAre(OUTER, rest[0]);
    assert rest[1..] == [] && AllChildren(LIST) == [EMPTY] && Found(EMPTY, []) == [EMPTY];
    assert LIST.entries[0].value == EMPTY && OUTER.fields[0].value == LIST;
    FoundUnder(OUTER, rest);
    hide Found;
    FoundOne(OUTER, EMPTY, []);
  }

  lemma ListFound()
    ensures Found(LIST, [Dots, Name("list")]) == []
  {
    var elems := [Dots, Name("list")];
    EmptyFound();
    assert elems[1..] == [Name("list")] && AllChildren(LIST) == [EMPTY] && LIST.entries[0].value == EMPTY;
    FoundUnder(LIST, elems);
    hide Found;
    FoundOne(LIST, EMPTY, elems[1..]);
    FoundOne(LIST, EMPTY, elems);
  }

  lemma OneField(f: Field)
    requires !f.value.List?
    ensures AllChildren(Struct([f])) == [f.value]
  {
    assert Init([f]) == [] && PlainFields([]) == [] && ListEntries([]) == [];
    assert PlainFields([f]) == [f.value] && ListEntries([f]) == [];
  }

  lemma WholeFound()
    ensures Found(WHOLE, [Dots, Name("list")]) == [EMPTY]
  {
    var elems := [Dots, Name("list")];
    assert elems[1..] == [Name("list")];
    OuterFound();
    ListFound();
    OneField(Field("outer", OUTER));
    assert WHOLE.fields[0].value == OUTER;
    FoundUnder(WHOLE, elems);
    hide Found;
    FoundOne(WHOLE, OUTER, elems[1..]);
    FoundOne(WHOLE, OUTER, elems);
  }

  lemma WholeReached()
    ensures Reached(WHOLE, [Dots, Name("list")]) == [EMPTY, EMPTY]
  {
    var elems := [Dots, Name("list")];
    assert elems[1..] == [Name("list")];
    assert GetAll(WHOLE) == [] + [OUTER] && WHOLE.fields[0].value == OUTER;
    ReachedUnder(WHOLE, elems);
    OuterReached();
    hide Reached;
    BothSnoc(WHOLE, [], OUTER, elems);
  }

  lemma WholeProper()
    ensures Proper(WHOLE)
  {
    assert Proper(LIST) && Proper(INNER);
    assert forall i :: 0 <= i < |OUTER.fields| ==> Proper(OUTER.fields[i].value);
    assert Proper(OUTER);
  }

  /** With a list name right after a '...' the first search loses nodes: it moves its cursor to the list of the
      outer container, and never looks into the container beside that list. */
  lemma ListAfterDotsLoses()
    ensures Proper(WHOLE)
    ensures Found(WHOLE, [Dots, Name("list")]) == [EMPTY] && Reached(WHOLE, [Dots, Name("list")]) == [EMPTY, EMPTY]
  {
    WholeFound();
    WholeReached();
    WholeProper();
  }

  // ---------------------------------------------------------------- the search itself

  /** dataAndPath: a cursor into the tree. */
  class Cursor {
    var value: Data

    constructor (value: Data)
      ensures this.value == value
    {
      this.value := value;
    }

    /** getAllChildren: the fields that are no lists, and then the entries of those that are. */
    method GetAllChildren() returns (children: seq<Cursor>)
      ensures HaveValues(children, AllChildren(value))
      ensures Distinct(children) && forall i :: 0 <= i < |children| ==> fresh(children[i])
      decreases value
    {
      ChildrenByKind(value);
      hide AllChildren, PlainFields, ListEntries, HaveValues, Distinct, Init, Last;
      match value {
        case Scalar(_) =>
          children := CursorsTo([]);
        case Struct(fields) =>
          var plain, more: seq<Cursor> := [], [];
          NoFields(fields);
          NoneTwice();
          for i := 0 to |fields|
            invariant HaveValues(plain, PlainFields(fields[..i])) && HaveValues(more, ListEntries(fields[..i]))
            invariant Distinct(plain + more)
            invariant forall k :: 0 <= k < |plain| ==> fresh(plain[k])
            invariant forall k :: 0 <= k < |more| ==> fresh(more[k])
          {
            var child := new Cursor(fields[i].value);
            BucketsSnoc(fields, i);
            if child.value.List? {
              var entries := child.GetAllChildren();
              ValuesConcat(more, ListEntries(fields[..i]), entries, AllChildren(fields[i].value));
              DistinctMore(plain, more, entries);
              more := more + entries;
            } else {
              ValuesSnoc(plain, PlainFields(fields[..i]), child);
              DistinctInsert(plain, more, child);
              plain := plain + [child];
            }
          }
          assert fields[..|fields|] == fields;
          ValuesConcat(plain, PlainFields(fields), more, ListEntries(fields));
          children := plain + more;
        case List(entries) =>
          children := CursorsTo(FieldValues(entries));
        case Slice(items) =>
          children := CursorsTo(items);
      }
    }

    /** findChildren: a list moves the cursor. */
    method FindChildren(p: Pattern) returns (children: seq<Cursor>)
      requires p.Name? || p.Keyed?
      modifies this
      ensures HaveValues(children, Children(old(value), p))
      ensures value == After(old(value), [p])
      ensures Distinct(children) && forall i :: 0 <= i < |children| ==> fresh(children[i])
    {
      var child := Find(value, p);
      ChildrenAre(value, p);
      hide Find, Children, After, AllChildren;
      if child.None? {
        return [];
      }
      if child.value.List? {
        value := child.value;
        children := GetAllChildren();
      } else {
        var c := new Cursor(child.value);
        children := [c];
      }
    }
  }

  lemma BucketsSnoc(fields: seq<Field>, i: nat)
    requires i < |fields|
    ensures var list, v := fields[i].value.List?, fields[i].value;
            && PlainFields(fields[..i + 1]) == (if list then PlainFields(fields[..i]) else PlainFields(fields[..i]) + [v])
            && ListEntries(fields[..i + 1]) == (if list then ListEntries(fields[..i]) + AllChildren(v) else ListEntries(fields[..i]))
  {
    assert Init(fields[..i + 1]) == fields[..i] && Last(fields[..i + 1]) == fields[i];
  }

  lemma ChildrenByKind(v: Data)
    ensures AllChildren(v)
            == match v
               case Scalar(_) => []
               case Struct(fields) => PlainFields(fields) + ListEntries(fields)
               case List(entries) => FieldValues(entries)
               case Slice(items) => items
  {
  }

  predicate Distinct(cursors: seq<Cursor>) {
    forall i, j :: 0 <= i < j < |cursors| ==> cursors[i] != cursors[j]
  }

  method CursorsTo(values: seq<Data>) returns (cursors: seq<Cursor>)
    ensures HaveValues(cursors, values)
    ensures Distinct(cursors) && forall i :: 0 <= i < |cursors| ==> fresh(cursors[i])
  {
    cursors := [];
    for i := 0 to |values|
      invariant |cursors| == i && Distinct(cursors)
      invariant forall j :: 0 <= j < i ==> fresh(cursors[j]) && cursors[j].value == values[j]
    {
      var c := new Cursor(values[i]);
      cursors := cursors + [c];
    }
  }

  ghost predicate HaveValues(cursors: seq<Cursor>, values: seq<Data>)
    reads cursors
  {
    |cursors| == |values| && forall i :: 0 <= i < |cursors| ==> cursors[i].value == values[i]
  }

  /** The cursors and values after a search from each of them. */
  ghost predicate Moved(cursors: seq<Cursor>, values: seq<Data>, elems: seq<Pattern>, n: nat)
    reads cursors
  {
    |cursors| == |values| && forall i :: 0 <= i < |cursors| ==>
      cursors[i].value == if i < n then After(values[i], elems) else values[i]
  }

  lemma NoFields(fields: seq<Field>)
    ensures HaveValues([], PlainFields(fields[..0])) && HaveValues([], ListEntries(fields[..0]))
  {
  }

  lemma NoneTwice()
    ensures Distinct([] + [])
  {
  }

  lemma ValuesSnoc(cursors: seq<Cursor>, values: seq<Data>, c: Cursor)
    requires HaveValues(cursors, values)
    ensures HaveValues(cursors + [c], values + [c.value])
  {
  }

  lemma DistinctMore(a: seq<Cursor>, b: seq<Cursor>, more: seq<Cursor>)
    requires Distinct(a + b) && Distinct(more)
    requires forall i :: 0 <= i < |more| ==> more[i] !in a && more[i] !in b
    ensures Distinct(a + (b + more))
  {
    ConcatAssoc(a, b, more);
    var all := a + b + more;
    assert forall i :: 0 <= i < |a + b| ==> all[i] == (a + b)[i] && all[i] in a + b;
    assert forall i :: |a + b| <= i < |all| ==> all[i] == more[i - |a + b|] && all[i] !in a + b;
  }

  lemma DistinctInsert(a: seq<Cursor>, b: seq<Cursor>, c: Cursor)
    requires Distinct(a + b) && c !in a && c !in b
    ensures Distinct(a + [c] + b)
  {
    var all := a + [c] + b;
    assert forall i :: 0 <= i < |a| ==> all[i] == (a + b)[i] && all[i] in a + b;
    assert forall i :: |a| < i < |all| ==> all[i] == (a + b)[i - 1] && all[i] in a + b;
  }

  lemma FoundEachSnoc(v: Data, values: seq<Data>, n: nat, elems: seq<Pattern>)
    requires AllBelow(values, v) && n < |values|
    ensures AllBelow(values[..n], v) && AllBelow(values[..n + 1], v)
    ensures FoundEach(v, values[..n + 1], elems) == FoundEach(v, values[..n], elems) + Found(values[n], elems)
    ensures elems != [] ==> FoundAgain(v, values[..n + 1], elems)
                            == FoundAgain(v, values[..n], elems) + Found(After(values[n], elems[1..]), elems)
  {
    hide Found, After;
    assert Init(values[..n + 1]) == values[..n];
  }

  /** One more search, whose cursors are appended to those found so far. */
  method Collect(c: Cursor, elems: seq<Pattern>, sofar: seq<Cursor>, ghost found: seq<Data>) returns (r: seq<Cursor>)
    requires HaveValues(sofar, found) && forall k :: 0 <= k < |sofar| ==> sofar[k] != c
    modifies c
    ensures c.value == After(old(c.value), elems)
    ensures HaveValues(r, found + Found(old(c.value), elems))
    ensures |sofar| <= |r| && r[..|sofar|] == sofar
    ensures forall k :: |sofar| <= k < |r| ==> (r[k] == c && elems == []) || fresh(r[k])
    decreases c.value, 2, 0
  {
    hide Found, After;
    assert forall k :: 0 <= k < |sofar| ==> sofar[k] != c;
    var more := FindAllData(c, elems);
    assert forall k :: 0 <= k < |sofar| ==> sofar[k].value == found[k];
    ghost var values := Found(old(c.value), elems);
    ValuesConcat(sofar, found, more, values);
    r := sofar + more;
  }

  lemma ValuesConcat(a: seq<Cursor>, x: seq<Data>, b: seq<Cursor>, y: seq<Data>)
    requires HaveValues(a, x) && HaveValues(b, y)
    ensures HaveValues(a + b, x + y)
  {
  }

  lemma AfterFirst(v: Data, elems: seq<Pattern>)
    requires elems != []
    ensures After(v, elems) == After(v, [elems[0]])
    ensures elems[0].Star? || elems[0].Dots? || v.Scalar? ==> After(v, elems) == v
  {
  }

  method FindEach(ghost v: Data, cursors: seq<Cursor>, ghost values: seq<Data>,
      elems: seq<Pattern>) returns (r: seq<Cursor>)
    requires Distinct(cursors) && HaveValues(cursors, values) && AllBelow(values, v)
    modifies cursors
    ensures Moved(cursors, values, elems, |cursors|)
    ensures HaveValues(r, FoundEach(v, values, elems))
    ensures forall k :: 0 <= k < |r| ==> r[k] in cursors || fresh(r[k])
    decreases v, 0, 0
  {
    r := [];
    hide FoundEach, Found, After;
    assert values[..|values|] == values;
    FoundNone(v, values, elems);
    for i := 0 to |cursors|
      invariant Moved(cursors, values, elems, i)
      invariant AllBelow(values[..i], v) && HaveValues(r, FoundEach(v, values[..i], elems))
      invariant forall k, j :: 0 <= k < |r| && i <= j < |cursors| ==> r[k] != cursors[j]
      invariant forall k :: 0 <= k < |r| ==> r[k] in cursors || fresh(r[k])
    {
      FoundEachSnoc(v, values, i, elems);
      r := Collect(cursors[i], elems, r, FoundEach(v, values[..i], elems));
    }
  }

  lemma FoundNone(v: Data, values: seq<Data>, elems: seq<Pattern>)
    ensures AllBelow(values[..0], v) && FoundEach(v, values[..0], elems) == []
    ensures elems != [] ==> FoundAgain(v, values[..0], elems) == []
  {
  }

  lemma DotsStay(elems: seq<Pattern>)
    requires elems != [] && elems[0].Dots?
    ensures forall c :: After(c, elems) == c
  {
  }

  method FindAgain(ghost v: Data, cursors: seq<Cursor>, ghost values: seq<Data>,
      elems: seq<Pattern>) returns (r: seq<Cursor>)
    requires elems != [] && elems[0].Dots? && AllBelow(values, v)
    requires Distinct(cursors) && Moved(cursors, values, elems[1..], |cursors|)
    modifies cursors
    ensures forall i :: 0 <= i < |cursors| ==> cursors[i].value == old(cursors[i].value)
    ensures HaveValues(r, FoundAgain(v, values, elems))
    ensures forall k :: 0 <= k < |r| ==> fresh(r[k])
    decreases v, 0, 0
  {
    hide FoundAgain, Found, After;
    r := [];
    ghost var rest := elems[1..];
    DotsStay(elems);
    assert values[..|values|] == values;
    FoundNone(v, values, elems);
    for i := 0 to |cursors|
      invariant forall j :: 0 <= j < |cursors| ==> cursors[j].value == After(values[j], rest) == old(cursors[j].value)
      invariant AllBelow(values[..i], v) && HaveValues(r, FoundAgain(v, values[..i], elems))
      invariant forall k :: 0 <= k < |r| ==> fresh(r[k])
    {
      FoundEachSnoc(v, values, i, elems);
      AfterBelow(values[i], v, rest);
      r := Collect(cursors[i], elems, r, FoundAgain(v, values[..i], elems));
    }
  }

  lemma AfterBelow(c: Data, v: Data, elems: seq<Pattern>)
    requires c < v
    ensures After(c, elems) < v
  {
  }

  /** The two loops under '...', over the same cursors. */
  method FindTwice(ghost v: Data, cursors: seq<Cursor>, ghost values: seq<Data>,
      elems: seq<Pattern>) returns (r: seq<Cursor>)
    requires elems != [] && elems[0].Dots? && AllBelow(values, v)
    requires Distinct(cursors) && HaveValues(cursors, values)
    modifies cursors
    ensures HaveValues(r, FoundEach(v, values, elems[1..]) + FoundAgain(v, values, elems))
    ensures forall k :: 0 <= k < |r| ==> r[k] in cursors || fresh(r[k])
    decreases v, 0, 1
  {
    hide FoundEach, FoundAgain, After;
    ghost var found := FoundEach(v, values, elems[1..]);
    var first := FindEach(v, cursors, values, elems[1..]);
    var again := FindAgain(v, cursors, values, elems);
    assert forall k :: 0 <= k < |first| ==> first[k].value == found[k];
    ValuesConcat(first, found, again, FoundAgain(v, values, elems));
    r := first + again;
  }

  /** findAllData */
  method FindAllData(dpath: Cursor, elems: seq<Pattern>) returns (r: seq<Cursor>)
    modifies dpath
    ensures dpath.value == After(old(dpath.value), elems)
    ensures HaveValues(r, Found(old(dpath.value), elems))
    ensures forall k :: 0 <= k < |r| ==> (r[k] == dpath && elems == []) || fresh(r[k])
    decreases dpath.value, 1, 0
  {
    if elems == [] {
      return [dpath];
    }
    AfterFirst(dpath.value, elems);
    if dpath.value.Scalar? {
      return [];
    }
    ghost var v := dpath.value;
    var elem := elems[0];
    FoundUnder(v, elems);
    hide Found, FoundEach, FoundAgain, AllChildren, Children, Find, After;
    if elem.Star? {
      var children := dpath.GetAllChildren();
      r := FindEach(v, children, AllChildren(v), elems[1..]);
    } else if elem.Dots? {
      var children := dpath.GetAllChildren();
      r := FindTwice(v, children, AllChildren(v), elems);
    } else {
      var children := dpath.FindChildren(elem);
      r := FindEach(v, children, Children(v, elem), elems[1..]);
    }
  }
}
