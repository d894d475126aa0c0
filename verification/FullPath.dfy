/** mergePaths and GNMIFullPath (utilities/xpath/path.go): a path under a prefix, with '.' and '..' resolved. */
module FullPath {
  import opened Text
  import opened PathText

  const HERE := "."
  const UP := ".."

  predicate IsPlainStep(e: Elem) {
    e.name != "." && e.name != ".."
  }

  /** mergePaths, as a function; a '..' above the root has no result: the code indexes out of range. */
  function Merge(abs: Path, rel: Path): Option<Path> {
    if rel == [] then Some(abs)
    else
      var merged := Merge(abs, Init(rel));
      if merged.None? || Last(rel).name == HERE then merged
      else if Last(rel).name != UP then Some(merged.value + [Last(rel)])
      else if merged.value == [] then None
      else Some(Init(merged.value))
  }

  method MergePaths(absPathElem: Path, relativePathElem: Path) returns (r: Option<Path>)
    ensures r == Merge(absPathElem, relativePathElem)
  {
    var mergedPath := absPathElem;
    for i := 0 to |relativePathElem|
      invariant Merge(absPathElem, relativePathElem[..i]) == Some(mergedPath)
    {
      var elem := relativePathElem[i];
      assert Init(relativePathElem[..i + 1]) == relativePathElem[..i];
      if elem.name == HERE {
      } else if elem.name == UP {
        if mergedPath == [] {
          ghost var done, rest := relativePathElem[..i + 1], relativePathElem[i + 1..];
          assert relativePathElem == done + rest;
          MergeConcat(absPathElem, done, rest);
          return None;
        }
        mergedPath := mergedPath[..|mergedPath| - 1];
      } else {
        mergedPath := mergedPath + [elem];
      }
    }
    assert relativePathElem[..|relativePathElem|] == relativePathElem;
    r := Some(mergedPath);
  }

  /** The elements of GNMIFullPath; the prefix may be missing. */
  method GNMIFullPath(prefix: Option<Path>, path: Path) returns (r: Option<Path>)
    ensures prefix.None? ==> r == Some(path)
    ensures prefix.Some? ==> r == Merge(prefix.value, path)
  {
    if prefix.None? {
      return Some(path);
    }
    if path == [] {
      return prefix;
    }
    r := MergePaths(prefix.value, path);
  }

  // ---------------------------------------------------------------- step by step, or all at once

  lemma {:induction false} MergeConcat(abs: Path, a: Path, b: Path)
    ensures Merge(abs, a + b) == if Merge(abs, a).None? then None else Merge(Merge(abs, a).value, b)
  {
    if b == [] {
      assert a + b == a;
    } else {
      MergeConcat(abs, a, Init(b));
      assert Init(a + b) == a + Init(b) && Last(a + b) == Last(b);
    }
  }

  lemma {:induction false} MergePlain(abs: Path, rel: Path)
    requires forall e :: e in rel ==> IsPlainStep(e)
    ensures Merge(abs, rel) == Some(abs + rel)
  {
    if rel == [] {
      assert abs + rel == abs;
    } else {
      InitLast(rel);
      assert Last(rel) in rel && forall e :: e in Init(rel) ==> e in rel;
      MergePlain(abs, Init(rel));
      ConcatAssoc(abs, Init(rel), [Last(rel)]);
    }
  }

  /** A prefix without '.' and '..' and a path merge as if they were one path from the root. */
  lemma MergeFromRoot(abs: Path, rel: Path)
    requires forall e :: e in abs ==> IsPlainStep(e)
    ensures Merge(abs, rel) == Merge([], abs + rel)
  {
    MergePlain([], abs);
    assert [] + abs == abs;
    MergeConcat([], abs, rel);
  }

  /** A step down and right up again can be left out anywhere, and so can a '.'. */
  lemma StepsCancel(abs: Path, before: Path, e: Elem, up: Elem, after: Path)
    requires (IsPlainStep(e) && up.name == "..") || (e.name == "." && up.name == ".")
    ensures Merge(abs, before + [e, up] + after) == Merge(abs, before + after)
  {
    hide Merge;
    MergeConcat(abs, before + [e, up], after);
    MergeConcat(abs, before, [e, up]);
    MergeConcat(abs, before, after);
    if Merge(abs, before).Some? {
      DownAndUp(Merge(abs, before).value, e, up);
    }
  }

  lemma DownAndUp(p: Path, e: Elem, up: Elem)
    requires (IsPlainStep(e) && up.name == "..") || (e.name == "." && up.name == ".")
    ensures Merge(p, [e, up]) == Some(p)
  {
    assert Init([e, up]) == [e] && Init([e]) == [];
    assert Merge(p, []) == Some(p);
    assert Init(p + [e]) == p;
  }

  // ---------------------------------------------------------------- when it has a result, and how much stays

  /** How far below the start of the path its steps lead, or above it. */
  function Height(rel: Path): int {
    if rel == [] then 0
    else Height(Init(rel)) + if Last(rel).name == "." then 0 else if Last(rel).name == ".." then -1 else 1
  }

  /** The lowest height on the way. */
  function Lowest(rel: Path): (low: int)
    ensures low <= Height(rel) && low <= 0
  {
    if rel == [] then 0 else var low := Lowest(Init(rel)); if Height(rel) < low then Height(rel) else low
  }

  lemma {:induction false} LowestIs(rel: Path)
    ensures forall n :: 0 <= n <= |rel| ==> Lowest(rel) <= Height(rel[..n])
    ensures exists n :: 0 <= n <= |rel| && Lowest(rel) == Height(rel[..n])
  {
    assert rel[..|rel|] == rel;
    if rel != [] {
      var front := Init(rel);
      LowestIs(front);
      assert forall n :: 0 <= n <= |front| ==> front[..n] == rel[..n];
      hide Lowest;
      LowestStep(rel);
    }
  }

  lemma LowestStep(rel: Path)
    requires rel != []
    ensures Lowest(rel) == if Height(rel) < Lowest(Init(rel)) then Height(rel) else Lowest(Init(rel))
  {
  }

  /** Merging has a result exactly when the path never climbs above the root. The result is as long as its steps
      say, and as much of the prefix is kept as the path never left. */
  lemma MergeExact(abs: Path, rel: Path)
    ensures Merge(abs, rel).Some? <==> forall n :: 0 <= n <= |rel| ==> |abs| + Height(rel[..n]) >= 0
    ensures Merge(abs, rel).Some? ==>
              && |Merge(abs, rel).value| == |abs| + Height(rel) && |abs| + Lowest(rel) >= 0
              && Merge(abs, rel).value[..|abs| + Lowest(rel)] == abs[..|abs| + Lowest(rel)]
  {
    LowestIs(rel);
    MergeKeeps(abs, rel);
  }

  lemma {:induction false} MergeKeeps(abs: Path, rel: Path)
    ensures Merge(abs, rel).Some? <==> |abs| + Lowest(rel) >= 0
    ensures Merge(abs, rel).Some? ==>
              && |Merge(abs, rel).value| == |abs| + Height(rel)
              && Merge(abs, rel).value[..|abs| + Lowest(rel)] == abs[..|abs| + Lowest(rel)]
  {
    if rel != [] {
      MergeKeeps(abs, Init(rel));
      if Merge(abs, rel).Some? {
        var before, after := Merge(abs, Init(rel)).value, Merge(abs, rel).value;
        var low, k := |abs| + Lowest(Init(rel)), |abs| + Lowest(rel);
        assert k <= low && before[..low][..k] == before[..k] && abs[..low][..k] == abs[..k];
        assert after[..k] == before[..k];
      }
    }
  }
}
