/** utilities/xpath/xpath.go: the [key=value] pairs of a list element. */
module KeyValues {
  import opened Text
  import opened XPath

  /** kvRe: a bracketed identifier, '=' and a non-empty value. */
  predicate IsPair(text: string) {
    && |text| >= 2 && text[0] == '[' && Last(text) == ']'
    && var inner := text[1..|text| - 1];
       var i := IndexOf(inner, '=');
       IsIdentifier(inner[..i]) && i + 1 < |inner|
  }

  function PairText(key: string, raw: string): string {
    "[" + key + "=" + raw + "]"
  }

  /** The pattern is met exactly by the bracketed pairs of an identifier and some text. */
  lemma PairMeaning(key: string, raw: string)
    requires '=' !in key
    ensures var inner := PairText(key, raw)[1..|PairText(key, raw)| - 1];
            inner == key + "=" + raw && IndexOf(inner, '=') == |key|
    ensures IsPair(PairText(key, raw)) <==> IsIdentifier(key) && raw != ""
  {
    var text := PairText(key, raw);
    var inner := text[1..|text| - 1];
    assert inner == key + ['='] + raw;
    IndexOfUnique(key, '=', raw);
    assert inner[..|key|] == key;
  }

  lemma PairParts(key: string, raw: string)
    requires '=' !in key && IsIdentifier(key) && raw != ""
    ensures IsPair(PairText(key, raw))
    ensures PairKey(PairText(key, raw)) == key && PairValue(PairText(key, raw)) == Unescape(raw)
  {
    PairMeaning(key, raw);
    assert (key + "=" + raw)[..|key|] == key && (key + "=" + raw)[|key| + 1..] == raw;
  }

  /** Recovers '[' and ']' from their escaped forms. */
  function Unescape(raw: string): string {
    ReplaceAll(ReplaceAll(raw, "\\]", "]"), "\\[", "[")
  }

  function PairKey(text: string): string
    requires IsPair(text)
  {
    text[1..|text| - 1][..IndexOf(text[1..|text| - 1], '=')]
  }

  function PairValue(text: string): string
    requires IsPair(text)
  {
    Unescape(text[1..|text| - 1][IndexOf(text[1..|text| - 1], '=') + 1..])
  }

  // ---------------------------------------------------------------- reading pairs

  predicate EscapedAt(s: string, n: nat)
    requires n <= |s|
  {
    n > 0 && s[n - 1] == '\\'
  }

  /** Unescaped '[' less unescaped ']' in s[b..n]. */
  function Depth(s: string, b: nat, n: nat): int
    requires b <= n <= |s|
  {
    if b == n then 0
    else if !IsBracket(s[n - 1]) || EscapedAt(s, n - 1) then Depth(s, b, n - 1)
    else if s[n - 1] == '[' then Depth(s, b, n - 1) + 1
    else Depth(s, b, n - 1) - 1
  }

  /** The ']' at n ends the pair begun at b: it is not escaped and leaves no bracket open. */
  predicate ClosesAt(s: string, b: nat, n: nat)
    requires b <= n < |s|
  {
    s[n] == ']' && !EscapedAt(s, n) && Depth(s, b, n + 1) <= 0
  }

  /** The first place from n on where the pair begun at b ends, or |s|. */
  function FindClose(s: string, b: nat, n: nat): (e: nat)
    requires b <= n <= |s|
    ensures n <= e <= |s|
    ensures e < |s| ==> ClosesAt(s, b, e)
    ensures forall k :: n <= k < e ==> !ClosesAt(s, b, k)
    decreases |s| - n
  {
    if n == |s| || ClosesAt(s, b, n) then n else FindClose(s, b, n + 1)
  }

  /** The pairs from b on, one after the other, a later one replacing an earlier one with the same key. */
  function PairsFrom(s: string, b: nat): Result<map<string, string>>
    requires b <= |s|
    decreases |s| - b
  {
    if b == |s| then Ok(map[])
    else
      var e := FindClose(s, b, b);
      if e == |s| || !IsPair(s[b..e + 1]) then Err
      else Merge(map[PairKey(s[b..e + 1]) := PairValue(s[b..e + 1])], PairsFrom(s, e + 1))
  }

  function Merge(first: map<string, string>, more: Result<map<string, string>>): Result<map<string, string>> {
    if more.Err? then Err else Ok(first + more.value)
  }

  /** parseKeyValueString, as a function of the text. */
  function Pairs(s: string): Result<map<string, string>> {
    PairsFrom(s, 0)
  }

  /** n is inside the pair begun at b, which has not ended before n. */
  ghost predicate OpenPair(s: string, b: nat, n: nat) {
    b <= n <= |s| && forall k :: b <= k < n ==> !ClosesAt(s, b, k)
  }

  /** Inside a pair that starts with '[' the depth stays above zero. */
  lemma {:induction false} DepthInPair(s: string, b: nat, n: nat)
    requires b < n && OpenPair(s, b, n) && s[b] == '[' && !EscapedAt(s, b)
    ensures Depth(s, b, n) > 0
  {
    if n > b + 1 {
      DepthInPair(s, b, n - 1);
      assert !ClosesAt(s, b, n - 1);
    } else {
      assert Depth(s, b, b) == 0;
    }
  }

  lemma CloseFound(s: string, b: nat, n: nat)
    requires n < |s| && OpenPair(s, b, n) && ClosesAt(s, b, n)
    ensures FindClose(s, b, b) == n
  {
  }

  lemma NothingCloses(s: string, b: nat)
    requires b < |s| && OpenPair(s, b, |s|)
    ensures PairsFrom(s, b) == Err
  {
  }

  /** What one closed pair adds. */
  lemma PairRead(s: string, b: nat, n: nat, first: map<string, string>)
    requires n < |s| && OpenPair(s, b, n) && ClosesAt(s, b, n) && !EscapedAt(s, b)
    ensures !IsPair(s[b..n + 1]) ==> PairsFrom(s, b) == Err
    ensures IsPair(s[b..n + 1]) ==> Depth(s, b, n + 1) == 0
    ensures IsPair(s[b..n + 1]) ==>
              Merge(first, PairsFrom(s, b)) ==
              Merge(first[PairKey(s[b..n + 1]) := PairValue(s[b..n + 1])], PairsFrom(s, n + 1))
  {
    hide *;
    CloseFound(s, b, n);
    PairsFromIs(s, b);
    var pair := s[b..n + 1];
    if IsPair(pair) {
      PairStarts(pair);
      assert s[b] == pair[0];
      DepthZero(s, b, n);
      MergeMore(first, PairKey(pair), PairValue(pair), PairsFrom(s, n + 1));
    }
  }

  lemma PairsFromIs(s: string, b: nat)
    requires b < |s|
    ensures var e := FindClose(s, b, b);
            PairsFrom(s, b) == if e == |s| || !IsPair(s[b..e + 1]) then Err
                               else Merge(map[PairKey(s[b..e + 1]) := PairValue(s[b..e + 1])], PairsFrom(s, e + 1))
  {
    hide IsPair, FindClose, PairKey, PairValue, Merge;
  }

  lemma PairStarts(pair: string)
    requires IsPair(pair)
    ensures |pair| >= 2 && pair[0] == '['
  {
  }

  lemma DepthZero(s: string, b: nat, n: nat)
    requires n < |s| && OpenPair(s, b, n) && ClosesAt(s, b, n) && !EscapedAt(s, b) && s[b] == '['
    ensures Depth(s, b, n + 1) == 0
  {
    if b < n {
      DepthInPair(s, b, n);
    }
  }

  lemma MergeMore(first: map<string, string>, k: string, v: string, more: Result<map<string, string>>)
    ensures Merge(first, Merge(map[k := v], more)) == Merge(first[k := v], more)
  {
    if more.Ok? {
      assert first + (map[k := v] + more.value) == first[k := v] + more.value;
    }
  }

  lemma MergeEmpty(more: Result<map<string, string>>)
    ensures Merge(map[], more) == more
  {
    if more.Ok? {
      assert map[] + more.value == more.value;
    }
  }

  lemma NoPairs(s: string)
    ensures PairsFrom(s, |s|) == Ok(map[])
  {
  }

  method ParseKeyValueString(str: string) returns (r: Result<map<string, string>>)
    ensures r == Pairs(str)
  {
    hide IsPair, PairKey, PairValue, PairsFrom;
    var keyValuePairs: map<string, string> := map[];
    var begin, end := 0, 0;
    var insideBrackets := 0;
    MergeEmpty(Pairs(str));
    NoPairs(str);
    while end < |str|
      invariant 0 <= begin <= end <= |str| && !EscapedAt(str, begin)
      invariant OpenPair(str, begin, end) && insideBrackets == Depth(str, begin, end)
      invariant Pairs(str) == Merge(keyValuePairs, PairsFrom(str, begin))
    {
      if str[end] == '[' {
        if end == 0 || str[end - 1] != '\\' {
          insideBrackets := insideBrackets + 1;
        }
        end := end + 1;
      } else if str[end] == ']' {
        if end == 0 || str[end - 1] != '\\' {
          insideBrackets := insideBrackets - 1;
          if insideBrackets <= 0 {
            var keyValue := str[begin..end + 1];
            PairRead(str, begin, end, keyValuePairs);
            if !IsPair(keyValue) {
              return Err;
            }
            var key, val := SplitPair(keyValue);
            keyValuePairs := keyValuePairs[key := val];
            begin := end + 1;
          }
        }
        end := end + 1;
      } else {
        end := end + 1;
      }
    }
    if begin < end {
      NothingCloses(str, begin);
      return Err;
    }
    assert keyValuePairs + map[] == keyValuePairs;
    return Ok(keyValuePairs);
  }

  method SplitPair(pair: string) returns (key: string, val: string)
    requires IsPair(pair)
    ensures key == PairKey(pair) && val == PairValue(pair)
  {
    var keyValue := pair[1..|pair| - 1];
    var i := IndexOf(keyValue, '=');
    key, val := keyValue[..i], keyValue[i + 1..];
    val := ReplaceAll(val, "\\]", "]");
    val := ReplaceAll(val, "\\[", "[");
  }

  // ---------------------------------------------------------------- values and their escapes

  /** Every bracket in w has a backslash before it. */
  predicate Quiet(w: string) {
    forall k :: 0 <= k < |w| && IsBracket(w[k]) ==> k > 0 && w[k - 1] == '\\'
  }

  predicate BracketFree(w: string) {
    '[' !in w && ']' !in w
  }

  /** Quiet, not empty, and the closing bracket after it is not escaped. */
  predicate IsRawValue(w: string) {
    Quiet(w) && w != "" && !Escapes(w)
  }

  lemma IdentifierQuiet(s: string)
    requires IsIdentifier(s)
    ensures s != "" && BracketFree(s) && '=' !in s && '/' !in s && '\\' !in s
  {
  }

  /** Over characters that are no brackets, or escaped ones, the depth stays. */
  lemma {:induction false} DepthQuiet(s: string, b: nat, m: nat, n: nat)
    requires b <= m <= n <= |s|
    requires forall k :: m <= k < n && IsBracket(s[k]) ==> EscapedAt(s, k)
    ensures Depth(s, b, n) == Depth(s, b, m)
  {
    if m < n {
      DepthQuiet(s, b, m, n - 1);
    }
  }

  /** Between its brackets a printed pair has none but escaped ones. */
  lemma PairShape(key: string, raw: string)
    requires IsIdentifier(key) && IsRawValue(raw)
    ensures var pair := PairText(key, raw);
            && pair[0] == '[' && Last(pair) == ']' && !EscapedAt(pair, |pair| - 1) && |pair| > 2
            && forall k :: 0 < k < |pair| - 1 && IsBracket(pair[k]) ==> EscapedAt(pair, k)
  {
    IdentifierQuiet(key);
    hide IsIdentifier;
    var inner := key + "=" + raw;
    assert Quiet(inner) by {
      QuietConcat(key + "=", raw);
    }
    var pair := PairText(key, raw);
    assert pair == "[" + inner + "]";
    assert Last(inner) == Last(raw);
    assert forall k :: 0 < k < |pair| - 1 ==> pair[k] == inner[k - 1];
  }

  lemma QuietConcat(a: string, b: string)
    requires Quiet(a) && Quiet(b)
    ensures Quiet(a + b)
  {
  }

  /** What holds in the text of a pair holds where that text stands. */
  lemma PairOpen(s: string, b: nat, pair: string)
    requires b + |pair| <= |s| && s[b..b + |pair|] == pair && |pair| > 2
    requires pair[0] == '[' && Last(pair) == ']' && !EscapedAt(pair, |pair| - 1) && !EscapedAt(s, b)
    requires forall k :: 0 < k < |pair| - 1 && IsBracket(pair[k]) ==> EscapedAt(pair, k)
    ensures OpenPair(s, b, b + |pair| - 1) && ClosesAt(s, b, b + |pair| - 1)
  {
    var n := b + |pair| - 1;
    assert forall k :: b <= k <= n ==> s[k] == s[b..b + |pair|][k - b];
    assert s[b] == '[' && s[n] == ']' && !EscapedAt(s, n);
    assert forall k :: b + 1 <= k < n && IsBracket(s[k]) ==> EscapedAt(s, k);
    forall m | b < m <= n
      ensures Depth(s, b, m) == 1
    {
      assert Depth(s, b, b) == 0;
      DepthQuiet(s, b, b + 1, m);
    }
  }

  lemma RawNotEmpty(raw: string)
    requires IsRawValue(raw)
    ensures raw != ""
  {
  }

  /** A printed pair, whatever follows it, is read as one pair. */
  lemma ReadPair(s: string, b: nat, key: string, raw: string)
    requires IsIdentifier(key) && IsRawValue(raw)
    requires b + |PairText(key, raw)| <= |s| && !EscapedAt(s, b)
    requires s[b..b + |PairText(key, raw)|] == PairText(key, raw)
    ensures PairsFrom(s, b) == Merge(map[key := Unescape(raw)], PairsFrom(s, b + |PairText(key, raw)|))
  {
    hide PairsFrom, IsPair, PairKey, PairValue, Unescape, PairText, IsIdentifier, IsRawValue;
    var pair := PairText(key, raw);
    RawNotEmpty(raw);
    PairShape(key, raw);
    IdentifierQuiet(key);
    PairParts(key, raw);
    var n := b + |pair| - 1;
    PairOpen(s, b, pair);
    assert s[b..n + 1] == pair;
    PairRead(s, b, n, map[]);
    MergeEmpty(PairsFrom(s, b));
    assert map[][key := Unescape(raw)] == map[key := Unescape(raw)];
  }

  function PrintPairs(keys: seq<string>, raws: map<string, string>): string
    requires forall k :: k in keys ==> k in raws
  {
    if keys == [] then "" else PairText(keys[0], raws[keys[0]]) + PrintPairs(keys[1..], raws)
  }

  /** Pairs printed one after the other are all read, in whatever order they come. */
  lemma {:induction false} ReadPairs(s: string, b: nat, keys: seq<string>, raws: map<string, string>)
    requires forall k :: k in keys ==> k in raws && IsIdentifier(k) && IsRawValue(raws[k])
    requires b <= |s| && s[b..] == PrintPairs(keys, raws) && !EscapedAt(s, b)
    ensures PairsFrom(s, b) == Ok(UnescapeAll(keys, raws))
    decreases keys
  {
    if keys == [] {
      NoPairs(s);
      hide PairsFrom;
      assert b == |s|;
      assert UnescapeAll(keys, raws) == map[];
    } else {
      hide PairsFrom, IsIdentifier, IsRawValue, PairText, UnescapeAll;
      var pair := PairText(keys[0], raws[keys[0]]);
      assert Last(pair) == ']' by { PairShape(keys[0], raws[keys[0]]); }
      SkipPrefix(s, b, pair, PrintPairs(keys[1..], raws));
      ReadPairs(s, b + |pair|, keys[1..], raws);
      ReadPair(s, b, keys[0], raws[keys[0]]);
      UnescapeAllStep(keys, raws);
    }
  }

  function UnescapeAll(keys: seq<string>, raws: map<string, string>): map<string, string>
    requires forall k :: k in keys ==> k in raws
  {
    map k | k in keys :: Unescape(raws[k])
  }

  lemma UnescapeAllStep(keys: seq<string>, raws: map<string, string>)
    requires keys != [] && forall k :: k in keys ==> k in raws
    ensures UnescapeAll(keys, raws) == map[keys[0] := Unescape(raws[keys[0]])] + UnescapeAll(keys[1..], raws)
  {
    assert keys == [keys[0]] + keys[1..];
  }

  // ---------------------------------------------------------------- escaping

  /** v with a backslash before every bracket. */
  function Escape(v: string): string {
    if v == "" then ""
    else (if IsBracket(v[0]) then ['\\', v[0]] else [v[0]]) + Escape(v[1..])
  }

  /** v with a backslash before every '['. */
  function EscapeOpening(v: string): string {
    if v == "" then ""
    else (if v[0] == '[' then ['\\', v[0]] else [v[0]]) + EscapeOpening(v[1..])
  }

  lemma ReplaceOne(c: char, a: char, tail: string)
    ensures a == '\\' && tail != "" && tail[0] == c ==>
              ReplaceAll([a] + tail, ['\\', c], [c]) == [c] + ReplaceAll(tail[1..], ['\\', c], [c])
    ensures a != '\\' || tail == "" || tail[0] != c ==>
              ReplaceAll([a] + tail, ['\\', c], [c]) == [a] + ReplaceAll(tail, ['\\', c], [c])
  {
    var s := [a] + tail;
    assert s[1..] == tail;
    if tail != "" {
      assert s[..2] == [a, tail[0]] && s[2..] == tail[1..];
    }
  }

  lemma EscapeUnfold(v: string)
    ensures Escape(v) == if v == "" then "" else if IsBracket(v[0]) then ['\\'] + ([v[0]] + Escape(v[1..])) else [v[0]] + Escape(v[1..])
    ensures EscapeOpening(v)
            == if v == "" then ""
               else if v[0] == '[' then ['\\'] + ([v[0]] + EscapeOpening(v[1..])) else [v[0]] + EscapeOpening(v[1..])
    ensures ReplaceAll("", "\\]", "]") == ""
  {
    hide IsBracket;
    if v != "" {
      ConcatAssoc(['\\'], [v[0]], Escape(v[1..]));
      ConcatAssoc(['\\'], [v[0]], EscapeOpening(v[1..]));
    }
  }

  lemma {:induction false} UnescapeClosing(v: string)
    ensures ReplaceAll(Escape(v), "\\]", "]") == EscapeOpening(v)
    ensures Escape(v) != "" ==> !IsBracket(Escape(v)[0])
  {
    hide ReplaceAll, Escape, EscapeOpening;
    EscapeUnfold(v);
    if v != "" {
      var tail := Escape(v[1..]);
      UnescapeClosing(v[1..]);
      ReplaceOne(']', v[0], tail);
      if IsBracket(v[0]) {
        var bracket := [v[0]] + tail;
        assert bracket[1..] == tail;
        ReplaceOne(']', '\\', bracket);
      }
    }
  }

  lemma {:induction false} UnescapeOpening(v: string)
    ensures ReplaceAll(EscapeOpening(v), "\\[", "[") == v
    ensures EscapeOpening(v) != "" ==> EscapeOpening(v)[0] != '['
  {
    if v != "" {
      hide ReplaceAll;
      var tail := EscapeOpening(v[1..]);
      UnescapeOpening(v[1..]);
      if v[0] == '[' {
        assert EscapeOpening(v) == ['\\'] + ([v[0]] + tail);
        ReplaceOne('[', '\\', [v[0]] + tail);
      } else {
        ReplaceOne('[', v[0], tail);
      }
      assert v == [v[0]] + v[1..];
    }
  }

  lemma {:induction false} EscapeQuiet(v: string)
    ensures Quiet(Escape(v)) && (v == "" <==> Escape(v) == "") && Escapes(Escape(v)) == Escapes(v)
  {
    if v != "" {
      var tail := Escape(v[1..]);
      EscapeQuiet(v[1..]);
      assert v[1..] != "" ==> Last(v[1..]) == Last(v);
      assert tail != "" ==> Last(Escape(v)) == Last(tail);
      QuietConcat(if IsBracket(v[0]) then ['\\', v[0]] else [v[0]], tail);
    }
  }

  lemma UnescapeEscape(v: string)
    ensures Unescape(Escape(v)) == v
  {
    UnescapeClosing(v);
    UnescapeOpening(v);
  }

  // ---------------------------------------------------------------- what a pair gives back

  lemma {:induction false} ReplaceShrinks(s: string, c: char)
    ensures |ReplaceAll(s, ['\\', c], [c])| <= |s|
    ensures s != "" ==> ReplaceAll(s, ['\\', c], [c]) != ""
    ensures |ReplaceAll(s, ['\\', c], [c])| == |s| <==>
            forall k :: 0 <= k < |s| && s[k] == c ==> !EscapedAt(s, k)
    ensures |ReplaceAll(s, ['\\', c], [c])| == |s| ==> ReplaceAll(s, ['\\', c], [c]) == s
  {
    if s != "" {
      hide ReplaceAll;
      var tail := s[1..];
      ReplaceOne(c, s[0], tail);
      assert s == [s[0]] + tail;
      if s[0] == '\\' && tail != "" && tail[0] == c {
        ReplaceShrinks(tail[1..], c);
        assert s[1] == c && EscapedAt(s, 1);
      } else {
        ReplaceShrinks(tail, c);
        assert forall k :: 0 < k < |s| ==> s[k] == tail[k - 1];
        assert forall k :: 0 <= k < |tail| ==> tail[k] == s[k + 1];
      }
    }
  }

  lemma UnescapeShrinks(raw: string)
    ensures |Unescape(raw)| <= |raw|
    ensures raw != "" ==> Unescape(raw) != ""
    ensures Unescape(raw) == raw <==> forall k :: 0 <= k < |raw| && IsBracket(raw[k]) ==> !EscapedAt(raw, k)
  {
    ReplaceShrinks(raw, ']');
    ReplaceShrinks(ReplaceAll(raw, "\\]", "]"), '[');
  }

  /** A pair read between b and e has at least as much text as key, value and three more characters. */
  lemma PairBound(pair: string)
    requires IsPair(pair)
    ensures PairValue(pair) != "" && |PairKey(pair)| + |PairValue(pair)| + 3 <= |pair|
  {
    var inner := pair[1..|pair| - 1];
    UnescapeShrinks(inner[IndexOf(inner, '=') + 1..]);
  }

  lemma {:induction false} ValuesBound(s: string, b: nat, key: string)
    requires b <= |s| && PairsFrom(s, b).Ok? && key in PairsFrom(s, b).value
    ensures var v := PairsFrom(s, b).value[key];
            v != "" && |key| + |v| + 3 <= |s| - b
    decreases |s| - b
  {
    var e := FindClose(s, b, b);
    PairBound(s[b..e + 1]);
    if key in PairsFrom(s, e + 1).value {
      ValuesBound(s, e + 1, key);
    }
  }

  /** Escapes are recovered: a value with its brackets escaped is read back as it was,
      exactly when it is not empty and does not end in a backslash. */
  lemma EscapesRecovered(key: string, v: string)
    requires IsIdentifier(key)
    ensures Pairs(PairText(key, Escape(v))) == Ok(map[key := v]) <==> v != "" && !Escapes(v)
  {
    var s := PairText(key, Escape(v));
    EscapeQuiet(v);
    if v == "" {
      if Pairs(s) == Ok(map[key := v]) {
        ValuesBound(s, 0, key);
      }
    } else if Escapes(v) {
      NeverCloses(key, Escape(v));
    } else {
      ReadPair(s, 0, key, Escape(v));
      UnescapeEscape(v);
      NoPairs(s);
      assert map[key := v] + map[] == map[key := v];
    }
  }

  /** A backslash at the end of a value escapes the bracket that should close the pair. */
  lemma NeverCloses(key: string, raw: string)
    requires IsIdentifier(key) && Quiet(raw) && raw != "" && Escapes(raw)
    ensures Pairs(PairText(key, raw)) == Err
  {
    var s := PairText(key, raw);
    IdentifierQuiet(key);
    QuietConcat(key + "=", raw);
    var inner := key + "=" + raw;
    assert s == "[" + inner + "]";
    hide PairsFrom, IsIdentifier, PairText;
    forall k | 0 <= k < |s|
      ensures !ClosesAt(s, 0, k)
    {
      if s[k] == ']' && k < |s| - 1 {
        assert s[k] == inner[k - 1] && s[k - 1] == inner[k - 2];
      } else if k == |s| - 1 {
        assert s[k - 1] == Last(inner) == Last(raw);
      }
    }
    NothingCloses(s, 0);
  }

  /** The brackets in v that follow no backslash nest properly. */
  predicate Balanced(v: string) {
    && (forall k :: 0 <= k <= |v| ==> Depth(v, 0, k) >= 0)
    && Depth(v, 0, |v|) == 0
  }

  /** The brackets in v nest properly and none follows a backslash. */
  predicate Nests(v: string) {
    Balanced(v) && forall k :: 0 <= k < |v| && IsBracket(v[k]) ==> !EscapedAt(v, k)
  }

  lemma PairPlaces(key: string, v: string)
    requires IsIdentifier(key)
    ensures var s, at := PairText(key, v), |key| + 2;
            && |s| == at + |v| + 1 && s[0] == '[' && Last(s) == ']' && s[at - 1] == '='
            && (forall k :: 0 < k < at ==> !IsBracket(s[k]))
            && (forall k :: at <= k < at + |v| ==> s[k] == v[k - at])
            && (forall k :: at <= k <= at + |v| ==> EscapedAt(s, k) == EscapedAt(v, k - at))
  {
    IdentifierQuiet(key);
    hide IsIdentifier;
    var s, at := PairText(key, v), |key| + 2;
    assert forall k :: 0 < k < at - 1 ==> s[k] == key[k - 1];
    assert forall k :: at <= k < at + |v| ==> s[k] == v[k - at];
  }

  /** The depth within a printed value is the value's own, one level further in. */
  lemma {:induction false} DepthInValue(key: string, v: string, n: nat)
    requires IsIdentifier(key) && n <= |v|
    ensures n + |key| + 2 <= |PairText(key, v)|
    ensures Depth(PairText(key, v), 0, |key| + 2 + n) == 1 + Depth(v, 0, n)
  {
    var s, at := PairText(key, v), |key| + 2;
    PairPlaces(key, v);
    hide IsIdentifier, PairText;
    if n == 0 {
      DepthQuiet(s, 0, 1, at);
      assert Depth(s, 0, 0) == 0;
    } else {
      DepthInValue(key, v, n - 1);
    }
  }

  lemma OpenInName(key: string, v: string)
    requires IsIdentifier(key)
    ensures OpenPair(PairText(key, v), 0, |key| + 2)
  {
    PairPlaces(key, v);
    hide IsIdentifier, PairText;
  }

  lemma NestedClosesLast(key: string, v: string)
    requires IsIdentifier(key) && Nests(v) && !Escapes(v)
    ensures FindClose(PairText(key, v), 0, 0) == |PairText(key, v)| - 1
  {
    hide IsIdentifier, PairText, Depth, FindClose;
    BalancedClosesLast(key, v);
  }

  lemma BalancedClosesLast(key: string, v: string)
    requires IsIdentifier(key) && Balanced(v) && !Escapes(v)
    ensures FindClose(PairText(key, v), 0, 0) == |PairText(key, v)| - 1
  {
    var s, at := PairText(key, v), |key| + 2;
    PairPlaces(key, v);
    OpenInName(key, v);
    hide IsIdentifier, PairText;
    forall k | at <= k < at + |v|
      ensures !ClosesAt(s, 0, k)
    {
      DepthInValue(key, v, k + 1 - at);
    }
    DepthInValue(key, v, |v|);
    CloseFound(s, 0, at + |v|);
  }

  lemma ClosesLastNested(key: string, v: string)
    requires IsIdentifier(key) && FindClose(PairText(key, v), 0, 0) == |PairText(key, v)| - 1
    ensures !Escapes(v) && Depth(v, 0, |v|) <= 0
    ensures forall n :: 0 <= n <= |v| ==> Depth(v, 0, n) >= 0
  {
    var s, at := PairText(key, v), |key| + 2;
    PairPlaces(key, v);
    hide IsIdentifier, PairText;
    assert ClosesAt(s, 0, at + |v|);
    DepthInValue(key, v, |v|);
    forall n | 0 <= n <= |v|
      ensures Depth(v, 0, n) >= 0
    {
      DepthInPair(s, 0, at + n);
      DepthInValue(key, v, n);
    }
  }

  /** A value printed as it stands is read back exactly when it is not empty, does not end
      in a backslash, and its brackets nest and are not escaped. */
  lemma RawValueExact(key: string, v: string)
    requires IsIdentifier(key)
    ensures Pairs(PairText(key, v)) == Ok(map[key := v]) <==> v != "" && !Escapes(v) && Nests(v)
  {
    hide *;
    if v != "" && !Escapes(v) && Nests(v) {
      NestedValueRead(key, v);
    }
    if Pairs(PairText(key, v)) == Ok(map[key := v]) {
      RawValueBack(key, v);
    }
  }

  lemma NestedValueRead(key: string, v: string)
    requires IsIdentifier(key) && v != "" && !Escapes(v) && Nests(v)
    ensures Pairs(PairText(key, v)) == Ok(map[key := v])
  {
    hide IsIdentifier, Unescape, Depth, PairText, FindClose;
    var s := PairText(key, v);
    IdentifierQuiet(key);
    PairPlaces(key, v);
    UnescapeShrinks(v);
    assert s[0..|s|] == s;
    NestedClosesLast(key, v);
    PairParts(key, v);
    NoPairs(s);
    assert map[key := v] + map[] == map[key := v];
  }

  lemma FirstPair(s: string)
    requires s != "" && Pairs(s).Ok?
    ensures var e := FindClose(s, 0, 0);
            && e < |s| && IsPair(s[0..e + 1]) && PairsFrom(s, e + 1).Ok?
            && Pairs(s).value == map[PairKey(s[0..e + 1]) := PairValue(s[0..e + 1])] + PairsFrom(s, e + 1).value
  {
    hide IsPair, PairKey, PairValue, FindClose;
  }

  lemma RawValueBack(key: string, v: string)
    requires IsIdentifier(key) && Pairs(PairText(key, v)) == Ok(map[key := v])
    ensures v != "" && !Escapes(v) && Nests(v)
  {
    hide *;
    var s := PairText(key, v);
    IdentifierQuiet(key);
    OnlyPair(key, v);
    ClosesLastNested(key, v);
    PairParts(key, v);
    UnescapeShrinks(v);
    NestsIf(v);
  }

  /** The only pair is read to its end, and its value is v. */
  lemma OnlyPair(key: string, v: string)
    requires IsIdentifier(key) && Pairs(PairText(key, v)) == Ok(map[key := v])
    ensures var s := PairText(key, v);
            v != "" && FindClose(s, 0, 0) == |s| - 1 && IsPair(s) && PairValue(s) == v
  {
    hide *;
    var s := PairText(key, v);
    PairEnds(key, v);
    var e := FindClose(s, 0, 0);
    FirstPair(s);
    PairBound(s[0..e + 1]);
    var more := PairsFrom(s, e + 1).value;
    if key in more {
      assert more[key] == Pairs(s).value[key];
      ValuesBound(s, e + 1, key);
      assert false;
    }
    assert key in Pairs(s).value && PairKey(s[0..e + 1]) == key && PairValue(s[0..e + 1]) == v;
    assert s[0..|s|] == s;
  }

  lemma NestsIf(v: string)
    requires (forall k :: 0 <= k <= |v| ==> Depth(v, 0, k) >= 0) && Depth(v, 0, |v|) <= 0
    requires forall k :: 0 <= k < |v| && IsBracket(v[k]) ==> !EscapedAt(v, k)
    ensures Nests(v)
  {
    hide Depth, EscapedAt;
  }

  // ---------------------------------------------------------------- every text

  /** The texts of pairs, one after the other; keys may come again. */
  function PairsText(pairs: seq<(string, string)>): string {
    if pairs == [] then "" else PairText(pairs[0].0, pairs[0].1) + PairsText(pairs[1..])
  }

  /** The parser takes the pair: an identifier, and a value whose brackets nest but for those that follow a backslash. */
  predicate IsWell(pair: (string, string)) {
    IsIdentifier(pair.0) && pair.1 != "" && !Escapes(pair.1) && Balanced(pair.1)
  }

  ghost predicate IsTextOf(s: string, pairs: seq<(string, string)>) {
    s == PairsText(pairs) && forall i :: 0 <= i < |pairs| ==> IsWell(pairs[i])
  }

  /** A text is no error exactly if it is a sequence of such pairs and nothing else. */
  lemma PairsExact(s: string)
    ensures Pairs(s).Ok? <==> exists pairs :: IsTextOf(s, pairs)
  {
    hide *;
    PairsAre(s);
    assert s[0..] == s;
    NotEscaped(s);
    if exists pairs :: IsTextOf(s, pairs) {
      var pairs :| IsTextOf(s, pairs);
      TextParts(s, pairs);
      LaterReplaces(s, 0, pairs);
    }
    if Pairs(s).Ok? {
      var pairs := PairsBack(s, 0);
      TextIf(s, pairs);
    }
  }

  lemma PairsAre(s: string)
    ensures Pairs(s) == PairsFrom(s, 0)
  {
  }

  lemma NotEscaped(s: string)
    ensures !EscapedAt(s, 0)
  {
  }

  lemma TextParts(s: string, pairs: seq<(string, string)>)
    requires IsTextOf(s, pairs)
    ensures s == PairsText(pairs) && forall i :: 0 <= i < |pairs| ==> IsWell(pairs[i])
  {
  }

  lemma TextIf(s: string, pairs: seq<(string, string)>)
    requires s == PairsText(pairs) && forall i :: 0 <= i < |pairs| ==> IsWell(pairs[i])
    ensures IsTextOf(s, pairs)
  {
  }

  /** The keys are those of the pairs, and of several pairs with the same key the last one counts. */
  ghost predicate Says(keys: map<string, string>, pairs: seq<(string, string)>) {
    && (forall k :: k in keys <==> exists i :: 0 <= i < |pairs| && pairs[i].0 == k)
    && forall i :: 0 <= i < |pairs| && (forall j :: i < j < |pairs| ==> pairs[j].0 != pairs[i].0) ==>
         pairs[i].0 in keys && keys[pairs[i].0] == Unescape(pairs[i].1)
  }

  lemma {:induction false} LaterReplaces(s: string, b: nat, pairs: seq<(string, string)>)
    requires forall j :: 0 <= j < |pairs| ==> IsWell(pairs[j])
    requires b <= |s| && s[b..] == PairsText(pairs) && !EscapedAt(s, b)
    ensures PairsFrom(s, b).Ok? && Says(PairsFrom(s, b).value, pairs)
    decreases |pairs|
  {
    hide *;
    if pairs == [] {
      NoPairs(s);
      NoText();
      SaysNothing();
      assert b == |s|;
    } else {
      var rest, pair := pairs[1..], PairText(pairs[0].0, pairs[0].1);
      PairsTextStep(pairs);
      SkipPrefix(s, b, pair, PairsText(rest));
      ReadWell(s, b, pairs[0]);
      LaterReplaces(s, b + |pair|, rest);
      MergedIs(pairs[0].0, Unescape(pairs[0].1), PairsFrom(s, b + |pair|));
      SaysMore(PairsFrom(s, b + |pair|).value, pairs);
    }
  }

  lemma SaysNothing()
    ensures Says(map[], [])
  {
  }

  lemma SaysMore(keys: map<string, string>, pairs: seq<(string, string)>)
    requires pairs != [] && Says(keys, pairs[1..])
    ensures Says(map[pairs[0].0 := Unescape(pairs[0].1)] + keys, pairs)
  {
    hide Unescape;
    var rest, more := pairs[1..], map[pairs[0].0 := Unescape(pairs[0].1)] + keys;
    assert forall j :: 0 < j < |pairs| ==> pairs[j] == rest[j - 1];
    forall k
      ensures k in more <==> exists i :: 0 <= i < |pairs| && pairs[i].0 == k
    {
      if k in keys {
        var j :| 0 <= j < |rest| && rest[j].0 == k;
        assert pairs[j + 1].0 == k;
      }
    }
    forall i | 0 <= i < |pairs| && forall j :: i < j < |pairs| ==> pairs[j].0 != pairs[i].0
      ensures pairs[i].0 in more && more[pairs[i].0] == Unescape(pairs[i].1)
    {
      if i > 0 {
        assert forall j :: i - 1 < j < |rest| ==> rest[j] == pairs[j + 1];
      } else {
        assert forall j :: 0 <= j < |rest| ==> rest[j] == pairs[j + 1];
        assert pairs[0].0 !in keys;
      }
    }
  }

  /** There is only one such map. */
  lemma SaysOne(a: map<string, string>, b: map<string, string>, pairs: seq<(string, string)>)
    requires Says(a, pairs) && Says(b, pairs)
    ensures a == b
  {
    hide Unescape;
    forall k | k in a
      ensures k in b && a[k] == b[k]
    {
      var i := LastWith(pairs, k);
    }
    assert forall k :: k in b ==> k in a;
  }

  lemma {:induction false} LastWith(pairs: seq<(string, string)>, k: string) returns (i: nat)
    requires exists j :: 0 <= j < |pairs| && pairs[j].0 == k
    ensures i < |pairs| && pairs[i].0 == k && forall j :: i < j < |pairs| ==> pairs[j].0 != k
    decreases |pairs|
  {
    if Last(pairs).0 == k {
      i := |pairs| - 1;
    } else {
      i := LastWith(Init(pairs), k);
    }
  }

  lemma NoText()
    ensures PairsText([]) == ""
  {
  }

  lemma PairsTextStep(pairs: seq<(string, string)>)
    requires pairs != []
    ensures PairsText(pairs) == PairText(pairs[0].0, pairs[0].1) + PairsText(pairs[1..])
  {
  }

  lemma ClosedThere(s: string, b: nat)
    requires 0 < b <= |s| && s[b - 1] == ']'
    ensures !EscapedAt(s, b)
  {
  }

  lemma MergedIs(k: string, v: string, more: Result<map<string, string>>)
    requires more.Ok?
    ensures Merge(map[k := v], more) == Ok(map[k := v] + more.value)
  {
  }

  lemma {:induction false} DepthMoved(s: string, b: nat, w: string, n: nat)
    requires b + |w| <= |s| && s[b..b + |w|] == w && !EscapedAt(s, b) && n <= |w|
    ensures Depth(s, b, b + n) == Depth(w, 0, n)
    decreases n
  {
    if n == 0 {
      assert Depth(s, b, b) == 0;
    } else {
      DepthMoved(s, b, w, n - 1);
      EscapedMoved(s, b, w, n - 1);
    }
  }

  lemma EscapedMoved(s: string, b: nat, w: string, n: nat)
    requires b + |w| <= |s| && s[b..b + |w|] == w && !EscapedAt(s, b) && n < |w|
    ensures s[b + n] == w[n] && EscapedAt(s, b + n) == EscapedAt(w, n)
  {
    assert s[b + n] == s[b..b + |w|][n];
    if n > 0 {
      assert s[b + n - 1] == s[b..b + |w|][n - 1];
    }
  }

  lemma ClosesMoved(s: string, b: nat, w: string)
    requires b + |w| <= |s| && s[b..b + |w|] == w && !EscapedAt(s, b)
    ensures forall n :: 0 <= n < |w| ==> (ClosesAt(s, b, b + n) <==> ClosesAt(w, 0, n))
  {
    hide Depth, EscapedAt;
    forall n | 0 <= n < |w|
      ensures ClosesAt(s, b, b + n) <==> ClosesAt(w, 0, n)
    {
      DepthMoved(s, b, w, n + 1);
      EscapedMoved(s, b, w, n);
    }
  }

  /** The first pair of s[b..] ends at its own first closing bracket. */
  lemma CloseMoved(s: string, b: nat, w: string)
    requires b + |w| <= |s| && s[b..b + |w|] == w && !EscapedAt(s, b) && w != ""
    ensures FindClose(w, 0, 0) == |w| - 1 <==> FindClose(s, b, b) == b + |w| - 1
  {
    hide *;
    ClosesMoved(s, b, w);
    CloseIs(s, b, b + |w| - 1);
    CloseIs(w, 0, |w| - 1);
    forall k | b <= k < b + |w|
      ensures ClosesAt(s, b, k) <==> ClosesAt(w, 0, k - b)
    {
      assert b + (k - b) == k;
    }
    forall n | 0 <= n < |w|
      ensures ClosesAt(w, 0, n) <==> ClosesAt(s, b, b + n)
    {
    }
  }

  lemma CloseIs(s: string, b: nat, n: nat)
    requires b <= n < |s|
    ensures FindClose(s, b, b) == n <==> ClosesAt(s, b, n) && (forall k :: b <= k < n ==> !ClosesAt(s, b, k))
  {
    hide ClosesAt, Depth;
    if ClosesAt(s, b, n) && (forall k :: b <= k < n ==> !ClosesAt(s, b, k)) {
      CloseFound(s, b, n);
    }
  }

  lemma ReadWell(s: string, b: nat, pair: (string, string))
    requires var w := PairText(pair.0, pair.1); b + |w| <= |s| && s[b..b + |w|] == w
    requires IsWell(pair) && !EscapedAt(s, b)
    ensures var w := PairText(pair.0, pair.1);
            && PairsFrom(s, b) == Merge(map[pair.0 := Unescape(pair.1)], PairsFrom(s, b + |w|))
            && b + |w| > b && !EscapedAt(s, b + |w|)
  {
    hide *;
    var w := PairText(pair.0, pair.1);
    WellParts(pair);
    IdentifierQuiet(pair.0);
    BalancedClosesLast(pair.0, pair.1);
    PairEnds(pair.0, pair.1);
    PairParts(pair.0, pair.1);
    CloseMoved(s, b, w);
    PairsFromIs(s, b);
    assert s[b + |w| - 1] == s[b..b + |w|][|w| - 1];
    ClosedThere(s, b + |w|);
  }

  lemma WellParts(pair: (string, string))
    ensures IsWell(pair) <==> IsIdentifier(pair.0) && pair.1 != "" && !Escapes(pair.1) && Balanced(pair.1)
  {
  }

  lemma PairEnds(key: string, raw: string)
    ensures var w := PairText(key, raw); |w| == |key| + |raw| + 3 && w[|w| - 1] == ']'
  {
  }

  /** Every text that is read consists of pairs. */
  lemma {:induction false} PairsBack(s: string, b: nat) returns (pairs: seq<(string, string)>)
    requires b <= |s| && !EscapedAt(s, b) && PairsFrom(s, b).Ok?
    ensures s[b..] == PairsText(pairs) && forall i :: 0 <= i < |pairs| ==> IsWell(pairs[i])
    decreases |s| - b
  {
    hide *;
    NoText();
    if b == |s| {
      return [];
    }
    PairsFromIs(s, b);
    var e := FindClose(s, b, b);
    CloseIs(s, b, e);
    ClosingIs(s, b, e);
    ClosedThere(s, e + 1);
    var w := s[b..e + 1];
    var pair := PairOf(w);
    CloseMoved(s, b, w);
    WellPair(pair);
    MergedOk(PairKey(w), PairValue(w), PairsFrom(s, e + 1));
    var rest := PairsBack(s, e + 1);
    pairs := [pair] + rest;
    PairsTextStep(pairs);
    assert pairs[1..] == rest;
    assert s[b..] == w + s[e + 1..];
  }

  lemma ClosingIs(s: string, b: nat, n: nat)
    requires b <= n < |s| && ClosesAt(s, b, n)
    ensures s[n] == ']'
  {
  }

  lemma MergedOk(k: string, v: string, more: Result<map<string, string>>)
    requires Merge(map[k := v], more).Ok?
    ensures more.Ok?
  {
  }

  lemma PairOf(w: string) returns (pair: (string, string))
    requires IsPair(w)
    ensures w == PairText(pair.0, pair.1) && IsIdentifier(pair.0) && pair.1 != ""
  {
    hide IsIdentifier;
    var inner := w[1..|w| - 1];
    var i := IndexOf(inner, '=');
    pair := (inner[..i], inner[i + 1..]);
    assert inner == inner[..i] + "=" + inner[i + 1..];
    assert w == "[" + inner + "]";
  }

  lemma WellPair(pair: (string, string))
    requires IsIdentifier(pair.0) && pair.1 != ""
    requires FindClose(PairText(pair.0, pair.1), 0, 0) == |PairText(pair.0, pair.1)| - 1
    ensures IsWell(pair)
  {
    hide IsIdentifier, Depth, PairText, FindClose;
    ClosesLastNested(pair.0, pair.1);
  }
}
