/** The few operations on strings that the modelled code takes from Go's standard library.
    A string is a sequence of characters; every character the code looks at is ASCII. */
module Text {

  datatype Option<+T> = None | Some(value: T)

  datatype Result<+T> = Ok(value: T) | Err

  function Init<T>(s: seq<T>): seq<T>
    requires s != []
  {
    s[..|s| - 1]
  }

  function Last<T>(s: seq<T>): T
    requires s != []
  {
    s[|s| - 1]
  }

  predicate HasPrefix(s: string, p: string) {
    p <= s
  }

  /** strings.Contains. */
  predicate Contains(s: string, part: string) {
    exists i :: 0 <= i <= |s| && part <= s[i..]
  }

  /** The position of the first c in s, or |s| when there is none. */
  function IndexOf(s: string, c: char): (i: nat)
    ensures i <= |s|
    ensures c !in s[..i]
    ensures i < |s| ==> s[i] == c
  {
    if s == "" || s[0] == c then 0
    else
      var i := IndexOf(s[1..], c);
      assert s[..i + 1] == [s[0]] + s[1..][..i];
      i + 1
  }

  lemma {:induction false} IndexOfUnique(a: string, c: char, b: string)
    requires c !in a
    ensures IndexOf(a + [c] + b, c) == |a|
  {
    var s := a + [c] + b;
    if a != [] {
      assert s[1..] == a[1..] + [c] + b;
      IndexOfUnique(a[1..], c, b);
    }
  }

  /** strings.Replace(s, pat, rep, -1) for a non-empty pat: left to right, without overlap. */
  function ReplaceAll(s: string, pat: string, rep: string): string
    requires pat != ""
  {
    if |s| < |pat| then s
    else if s[..|pat|] == pat then rep + ReplaceAll(s[|pat|..], pat, rep)
    else [s[0]] + ReplaceAll(s[1..], pat, rep)
  }

  /** strings.Join. */
  function Join(parts: seq<string>, sep: string): string {
    if parts == [] then ""
    else if |parts| == 1 then parts[0]
    else parts[0] + sep + Join(parts[1..], sep)
  }

  /** The concatenation of all parts, each led by a '/': what strings.Join gives for [""] + parts. */
  function Slashed(parts: seq<string>): string {
    if parts == [] then "" else "/" + parts[0] + Slashed(parts[1..])
  }

  lemma {:induction false} SlashedIsJoin(parts: seq<string>)
    ensures Join([""] + parts, "/") == Slashed(parts)
  {
    if parts != [] {
      var all := [""] + parts;
      assert all[1..] == parts;
      SlashedIsJoin(parts[1..]);
      if |parts| > 1 {
        var rest := [""] + parts[1..];
        assert rest[1..] == parts[1..];
        assert Join(rest, "/") == "" + "/" + Join(parts[1..], "/");
      }
    }
  }

  lemma {:induction false} SlashedAppend(a: seq<string>, b: seq<string>)
    ensures Slashed(a + b) == Slashed(a) + Slashed(b)
  {
    if a == [] {
      assert a + b == b;
    } else {
      assert (a + b)[1..] == a[1..] + b;
      SlashedAppend(a[1..], b);
    }
  }

  /** Text that starts with p goes on with what follows p. */
  lemma SkipPrefix(s: string, b: nat, p: string, q: string)
    requires b <= |s| && s[b..] == p + q
    ensures b + |p| <= |s| && s[b + |p|..] == q && s[b..b + |p|] == p
    ensures p != "" ==> s[b + |p| - 1] == Last(p)
  {
    assert s[b + |p|..] == s[b..][|p|..];
    assert s[b..b + |p|] == s[b..][..|p|];
    if p != "" {
      assert s[b + |p| - 1] == s[b..][|p| - 1];
    }
  }

  lemma InitLast<T>(s: seq<T>)
    requires s != []
    ensures Init(s) + [Last(s)] == s && |Init(s)| == |s| - 1
  {
  }

  lemma ConcatAssoc<T>(a: seq<T>, b: seq<T>, c: seq<T>)
    ensures a + b + c == a + (b + c)
  {
  }

  /** What a map has at k, if anything. */
  function At<K(==), V>(m: map<K, V>, k: K): Option<V> {
    if k in m then Some(m[k]) else None
  }

  /** Maps with the same lookups are equal. */
  lemma SameMap<K, V>(a: map<K, V>, b: map<K, V>)
    requires forall k :: At(a, k) == At(b, k)
    ensures a == b
  {
    forall k
      ensures k in a <==> k in b
      ensures k in a ==> a[k] == b[k]
    {
      assert At(a, k) == At(b, k);
    }
  }

  /** A walk through a set in any order: what is done and what is still to do. */
  ghost predicate Partition<T>(all: set<T>, done: set<T>, todo: set<T>) {
    done !! todo && done + todo == all
  }

  lemma PartitionStart<T>(all: set<T>)
    ensures Partition(all, {}, all)
  {
  }

  lemma PartitionMore<T>(all: set<T>, done: set<T>, todo: set<T>, x: T)
    requires Partition(all, done, todo) && x in todo
    ensures Partition(all, done + {x}, todo - {x}) && x in all && x !in done && |todo - {x}| < |todo|
  {
  }

  lemma PartitionEnd<T>(all: set<T>, done: set<T>)
    requires Partition(all, done, {})
    ensures done == all
  {
  }
}
