/** utilities/xpath/xpath.go: from the text of a path to its parsed elements.
    One pass cuts the text at the '/' that lie outside brackets, a second one reads
    the [key=value] pairs of each piece. */
module XPath {
  import opened Text

  /** What parseElement yields: a node name, or the key-value pairs of the list named just before. */
  datatype Part = Name(name: string) | Keys(pairs: map<string, string>)

  // ---------------------------------------------------------------- identifiers

  predicate IsDigit(c: char) { '0' <= c <= '9' }
  predicate IsLetter(c: char) { 'a' <= c <= 'z' || 'A' <= c <= 'Z' }

  predicate IsIdentifierStart(c: char) { IsLetter(c) || IsDigit(c) || c == '_' }
  predicate IsIdentifierChar(c: char) { IsIdentifierStart(c) || c == '-' || c == '.' }

  /** idPattern: section 6.2 of RFC 6020, with a leading digit allowed as well. */
  predicate IsIdentifier(s: string) {
    s != "" && IsIdentifierStart(s[0]) && forall c :: c in s ==> IsIdentifierChar(c)
  }

  predicate IsBracket(c: char) { c == '[' || c == ']' }

  /** The next character is escaped when the text read so far ends in a backslash. */
  predicate Escapes(read: string) {
    read != "" && Last(read) == '\\'
  }

  // ---------------------------------------------------------------- splitting

  /** Whether the splitter is inside brackets once it has read s. */
  predicate Inside(s: string)
  {
    if s == "" then false
    else if IsBracket(Last(s)) && !Escapes(Init(s)) then Last(s) == '['
    else Inside(Init(s))
  }

  /** The pieces completed so far and the one still being read. */
  datatype Cut = Cut(pieces: seq<string>, open: string) {
    function Closed(): seq<string> {
      if open == "" then pieces else pieces + [open]
    }
  }

  function CutUp(s: string): Cut {
    if s == "" then Cut([], "")
    else
      var cut := CutUp(Init(s));
      if Last(s) == '/' && !Inside(Init(s)) then Cut(cut.Closed(), "")
      else Cut(cut.pieces, cut.open + [Last(s)])
  }

  /** splitPath, as a function of the text. */
  function Split(s: string): Result<seq<string>> {
    if Inside(s) then Err else Ok(CutUp(s).Closed())
  }

  /** The '/' put behind the text completes its last piece. */
  lemma TrailingSlash(text: string)
    ensures Inside(text + "/") == Inside(text)
    ensures Split(text) == if Inside(text) then Err else Ok(CutUp(text + "/").pieces)
  {
    assert Init(text + "/") == text;
  }

  lemma ReadNothing(s: string)
    ensures !Inside(s[..0]) && CutUp(s[..0]) == Cut([], "")
  {
  }

  /** What reading one more character does. */
  lemma ReadStep(s: string, n: nat)
    requires n < |s|
    ensures Inside(s[..n + 1]) ==
            if IsBracket(s[n]) && !(n > 0 && s[n - 1] == '\\') then s[n] == '[' else Inside(s[..n])
    ensures CutUp(s[..n + 1]) ==
            if s[n] == '/' && !Inside(s[..n]) then Cut(CutUp(s[..n]).Closed(), "")
            else Cut(CutUp(s[..n]).pieces, CutUp(s[..n]).open + [s[n]])
  {
    assert Init(s[..n + 1]) == s[..n];
  }

  method SplitPath(text: string) returns (r: Result<seq<string>>)
    ensures r == Split(text)
  {
    var str := text + "/";
    TrailingSlash(text);
    hide Inside, CutUp, Split;
    var path: seq<string> := [];
    var insideBrackets := false;
    var begin, end := 0, 0;
    ReadNothing(str);
    while end < |str|
      invariant 0 <= begin <= end <= |str|
      invariant insideBrackets == Inside(str[..end])
      invariant CutUp(str[..end]) == Cut(path, str[begin..end])
    {
      assert str[begin..end + 1] == str[begin..end] + [str[end]];
      ReadStep(str, end);
      if str[end] == '/' {
        if !insideBrackets {
          if end > begin {
            path := path + [str[begin..end]];
          }
          end := end + 1;
          begin := end;
        } else {
          end := end + 1;
        }
      } else if str[end] == '[' {
        if (end == 0 || str[end - 1] != '\\') && !insideBrackets {
          insideBrackets := true;
        }
        end := end + 1;
      } else if str[end] == ']' {
        if (end == 0 || str[end - 1] != '\\') && insideBrackets {
          insideBrackets := false;
        }
        end := end + 1;
      } else {
        end := end + 1;
      }
    }
    assert str[..end] == str;
    return if insideBrackets then Err else Ok(path);
  }

  /** A piece that a split can yield: not empty, brackets closed, every '/' enclosed. */
  predicate IsPiece(w: string) {
    && w != ""
    && !Inside(w)
    && forall k :: 0 <= k < |w| && w[k] == '/' ==> Inside(w[..k])
  }

  /** A place where the splitter has forgotten everything it read. */
  predicate IsBoundary(s: string) {
    s == "" || (Last(s) == '/' && !Inside(Init(s)))
  }

  /** Past a boundary the text is read as if it stood alone. */
  lemma {:induction false} ReadPastBoundary(a: string, b: string)
    requires IsBoundary(a)
    ensures Inside(a + b) == Inside(b)
    ensures CutUp(a).open == ""
    ensures CutUp(a + b) == Cut(CutUp(a).pieces + CutUp(b).pieces, CutUp(b).open)
  {
    if b == "" {
      assert a + b == a;
    } else {
      assert Init(a + b) == a + Init(b);
      ReadPastBoundary(a, Init(b));
    }
  }

  /** Reading a piece, or the start of one, cuts nothing. */
  lemma {:induction false} PieceUncut(w: string)
    requires forall k :: 0 <= k < |w| && w[k] == '/' ==> Inside(w[..k])
    ensures CutUp(w) == Cut([], w)
    decreases |w|
  {
    hide *;
    if w == "" {
      NothingCut();
    } else {
      InitLast(w);
      forall k | 0 <= k < |Init(w)| && Init(w)[k] == '/'
        ensures Inside(Init(w)[..k])
      {
        InitUpTo(w, k);
      }
      PieceUncut(Init(w));
      CutLast(w);
    }
  }

  lemma InitUpTo(w: string, k: nat)
    requires k < |w| - 1
    ensures Init(w)[..k] == w[..k] && Init(w)[k] == w[k]
  {
  }

  lemma CutLast(w: string)
    requires w != "" && CutUp(Init(w)) == Cut([], Init(w)) && (Last(w) == '/' ==> Inside(w[..|w| - 1]))
    ensures CutUp(w) == Cut([], w)
  {
    hide Inside;
    InitLast(w);
  }

  /** Whatever is cut up, the pieces are pieces and the open text is the start of one. */
  lemma {:induction false} CutYieldsPieces(s: string)
    ensures forall w :: w in CutUp(s).pieces ==> IsPiece(w)
    ensures Inside(CutUp(s).open) == Inside(s)
    ensures Escapes(CutUp(s).open) == Escapes(s)
    ensures forall k :: 0 <= k < |CutUp(s).open| && CutUp(s).open[k] == '/' ==> Inside(CutUp(s).open[..k])
  {
    if s != "" {
      CutYieldsPieces(Init(s));
      var before, cut := CutUp(Init(s)).open, CutUp(s);
      if cut.open != "" {
        assert Init(cut.open) == before;
        assert forall k :: 0 <= k < |before| ==> cut.open[..k] == before[..k];
      }
    }
  }

  /** n slashes. */
  function Slashes(n: nat): string {
    if n == 0 then "" else Slashes(n - 1) + "/"
  }

  /** The pieces with gaps[i] slashes before the i-th and gaps[|pieces|] slashes at the end. */
  function Spread(pieces: seq<string>, gaps: seq<nat>): string
    requires |gaps| == |pieces| + 1
  {
    if pieces == [] then Slashes(gaps[0])
    else Spread(Init(pieces), Init(gaps)) + Last(pieces) + Slashes(Last(gaps))
  }

  /** Two neighbours have at least one slash between them. */
  predicate Separates(gaps: seq<nat>) {
    forall i :: 0 < i < |gaps| - 1 ==> gaps[i] > 0
  }

  lemma {:induction false} SlashesCut(w: string, n: nat)
    requires w == "" || IsPiece(w)
    ensures !Inside(w + Slashes(n))
    ensures CutUp(w + Slashes(n)).Closed() == if w == "" then [] else [w]
    ensures w == "" || n > 0 ==> IsBoundary(w + Slashes(n))
  {
    hide *;
    SlashesAre(n);
    if n == 0 {
      assert w + "" == w;
      if w == "" {
        NothingCut();
      } else {
        PieceAlone(w);
      }
    } else {
      SlashesCut(w, n - 1);
      OneMoreSlash(w + Slashes(n - 1));
      ConcatAssoc(w, Slashes(n - 1), "/");
    }
  }

  lemma NothingCut()
    ensures !Inside("") && CutUp("") == Cut([], "") && CutUp("").Closed() == [] && IsBoundary("")
  {
  }

  lemma PieceAlone(w: string)
    requires IsPiece(w)
    ensures !Inside(w) && CutUp(w).Closed() == [w]
  {
    PieceUncut(w);
  }

  lemma SlashesAre(n: nat)
    ensures Slashes(n) == if n == 0 then "" else Slashes(n - 1) + "/"
  {
  }

  lemma OneMoreSlash(s: string)
    requires !Inside(s)
    ensures !Inside(s + "/") && CutUp(s + "/").Closed() == CutUp(s).Closed() && IsBoundary(s + "/")
  {
    assert Init(s + "/") == s;
  }

  /** A piece and its slashes, read after a boundary. */
  lemma AppendRead(front: string, tail: string)
    requires IsBoundary(front) && !Inside(tail)
    ensures !Inside(front + tail)
    ensures CutUp(front + tail).Closed() == CutUp(front).Closed() + CutUp(tail).Closed()
  {
    ReadPastBoundary(front, tail);
  }

  lemma AppendBoundary(front: string, tail: string)
    requires IsBoundary(front) && tail != "" && IsBoundary(tail)
    ensures IsBoundary(front + tail)
  {
    assert Init(front + tail) == front + Init(tail);
    ReadPastBoundary(front, Init(tail));
  }

  lemma AppendPiece(front: string, w: string, n: nat)
    requires IsBoundary(front) && IsPiece(w)
    ensures !Inside(front + (w + Slashes(n)))
    ensures CutUp(front + (w + Slashes(n))).Closed() == CutUp(front).Closed() + [w]
    ensures n > 0 ==> IsBoundary(front + (w + Slashes(n)))
  {
    SlashesCut(w, n);
    AppendRead(front, w + Slashes(n));
    if n > 0 {
      AppendBoundary(front, w + Slashes(n));
    }
  }

  /** s splits into the pieces, and ends in a boundary when it must. */
  ghost predicate SplitsInto(s: string, pieces: seq<string>, bounded: bool) {
    && Split(s) == Ok(pieces)
    && (bounded ==> IsBoundary(s))
  }

  /** However the pieces are spread out, splitting finds them again. */
  lemma {:induction false} SpreadSplits(pieces: seq<string>, gaps: seq<nat>)
    requires |gaps| == |pieces| + 1 && Separates(gaps)
    requires forall w :: w in pieces ==> IsPiece(w)
    ensures SplitsInto(Spread(pieces, gaps), pieces, pieces == [] || Last(gaps) > 0)
  {
    if pieces == [] {
      hide SplitsInto;
      NoPieces(gaps[0]);
      assert Spread(pieces, gaps) == Slashes(gaps[0]);
    } else {
      hide SplitsInto, IsPiece, Split;
      SpreadSplits(Init(pieces), Init(gaps));
      SpreadUnfold(pieces, gaps);
      SpreadStep(Spread(Init(pieces), Init(gaps)), Init(pieces), Last(pieces), Last(gaps));
    }
  }

  lemma SpreadUnfold(pieces: seq<string>, gaps: seq<nat>)
    requires |gaps| == |pieces| + 1 && pieces != []
    ensures Spread(pieces, gaps) ==
            Spread(Init(pieces), Init(gaps)) + (Last(pieces) + Slashes(Last(gaps)))
    ensures pieces == Init(pieces) + [Last(pieces)]
  {
    hide *;
    InitLast(pieces);
    InitLast(gaps);
    SpreadLast(pieces, gaps);
    ConcatAssoc(Spread(Init(pieces), Init(gaps)), Last(pieces), Slashes(Last(gaps)));
  }

  lemma SpreadLast(pieces: seq<string>, gaps: seq<nat>)
    requires |gaps| == |pieces| + 1 && pieces != []
    ensures Spread(pieces, gaps) == Spread(Init(pieces), Init(gaps)) + Last(pieces) + Slashes(Last(gaps))
  {
    hide Slashes;
  }

  lemma NoPieces(n: nat)
    ensures SplitsInto(Slashes(n), [], true)
  {
    SlashesCut("", n);
    assert "" + Slashes(n) == Slashes(n);
  }

  lemma SpreadStep(front: string, pieces: seq<string>, w: string, n: nat)
    requires SplitsInto(front, pieces, true) && IsPiece(w)
    ensures SplitsInto(front + (w + Slashes(n)), pieces + [w], n > 0)
  {
    AppendPiece(front, w, n);
  }

  /** Every text is its pieces, spread out by slashes. */
  lemma {:induction false} CutIsSpread(s: string) returns (gaps: seq<nat>)
    ensures FitsCut(s, gaps)
  {
    hide CutUp, Inside, Spread, FitsCut;
    if s == "" {
      EmptyFits();
      return [0];
    }
    var before := CutIsSpread(Init(s));
    gaps := CutStep(Init(s), before, Last(s));
    assert s == Init(s) + [Last(s)];
  }

  ghost predicate FitsCut(s: string, gaps: seq<nat>) {
    var pieces := CutUp(s).Closed();
    && |gaps| == |pieces| + 1
    && Separates(gaps)
    && (pieces != [] ==> (CutUp(s).open != "" <==> Last(gaps) == 0))
    && s == Spread(pieces, gaps)
  }

  lemma EmptyFits()
    ensures FitsCut("", [0])
  {
    assert Slashes(0) == "";
  }

  lemma CutStep(s: string, before: seq<nat>, c: char) returns (gaps: seq<nat>)
    requires FitsCut(s, before)
    ensures FitsCut(s + [c], gaps)
  {
    var cut := CutUp(s);
    assert Init(s + [c]) == s;
    if c == '/' && !Inside(s) {
      gaps := CutStepSlash(s, before, c);
    } else if cut.open == "" {
      gaps := CutStepNew(s, before, c);
    } else {
      gaps := before;
      CutStepGrow(s, before, c);
    }
  }

  lemma CutStepSlash(s: string, before: seq<nat>, c: char) returns (gaps: seq<nat>)
    requires FitsCut(s, before) && CutUp(s + [c]) == Cut(CutUp(s).Closed(), "") && c == '/'
    ensures FitsCut(s + [c], gaps)
  {
    hide Inside, CutUp, Spread;
    gaps := Init(before) + [Last(before) + 1];
    SpreadSlash(CutUp(s).Closed(), before, gaps);
  }

  lemma CutStepNew(s: string, before: seq<nat>, c: char) returns (gaps: seq<nat>)
    requires FitsCut(s, before) && CutUp(s).open == "" && CutUp(s + [c]) == Cut(CutUp(s).pieces, [c])
    ensures FitsCut(s + [c], gaps)
  {
    hide Inside, CutUp, Spread;
    gaps := before + [0];
    SpreadNew(CutUp(s).pieces, before, [c]);
  }

  lemma CutStepGrow(s: string, gaps: seq<nat>, c: char)
    requires FitsCut(s, gaps) && CutUp(s).open != ""
    requires CutUp(s + [c]) == Cut(CutUp(s).pieces, CutUp(s).open + [c])
    ensures FitsCut(s + [c], gaps)
  {
    hide Inside, CutUp, Spread;
    SpreadGrow(CutUp(s).pieces, CutUp(s).open, gaps, c);
  }

  lemma SpreadSlash(pieces: seq<string>, gaps: seq<nat>, more: seq<nat>)
    requires |gaps| == |pieces| + 1 && more == Init(gaps) + [Last(gaps) + 1]
    ensures Spread(pieces, more) == Spread(pieces, gaps) + "/"
  {
    assert Init(more) == Init(gaps);
  }

  lemma SpreadNew(pieces: seq<string>, gaps: seq<nat>, w: string)
    requires |gaps| == |pieces| + 1
    ensures Spread(pieces + [w], gaps + [0]) == Spread(pieces, gaps) + w
  {
    assert Init(pieces + [w]) == pieces && Init(gaps + [0]) == gaps;
  }

  lemma SpreadGrow(pieces: seq<string>, w: string, gaps: seq<nat>, c: char)
    requires |gaps| == |pieces| + 2 && Last(gaps) == 0
    ensures Spread(pieces + [w + [c]], gaps) == Spread(pieces + [w], gaps) + [c]
  {
    assert Init(pieces + [w]) == pieces == Init(pieces + [w + [c]]);
  }

  /** Exactly what splitPath does: it fails when brackets stay open, and otherwise gives
      the one way to read the text as pieces spread out by slashes. */
  lemma SplitExact(s: string, pieces: seq<string>)
    ensures Split(s) == Ok(pieces) <==>
            && (forall w :: w in pieces ==> IsPiece(w))
            && exists gaps: seq<nat> :: |gaps| == |pieces| + 1 && Separates(gaps) && s == Spread(pieces, gaps)
    ensures Split(s).Err? <==> Inside(s)
  {
    if Split(s) == Ok(pieces) {
      CutYieldsPieces(s);
      var gaps := CutIsSpread(s);
    }
    forall gaps: seq<nat> | (forall w :: w in pieces ==> IsPiece(w)) &&
                            |gaps| == |pieces| + 1 && Separates(gaps) && s == Spread(pieces, gaps)
      ensures Split(s) == Ok(pieces)
    {
      SpreadSplits(pieces, gaps);
    }
  }

  /** The pieces with one slash before each and one more at the end. */
  lemma {:induction false} SlashedIsSpread(pieces: seq<string>)
    ensures Spread(pieces, seq(|pieces| + 1, _ => 1)) == Slashed(pieces) + "/"
  {
    if pieces != [] {
      SlashedIsSpread(Init(pieces));
      SlashedAppend(Init(pieces), [Last(pieces)]);
      assert pieces == Init(pieces) + [Last(pieces)];
      assert Init(seq(|pieces| + 1, _ => 1)) == seq(|pieces|, _ => 1);
      assert Slashes(1) == Slashes(0) + "/";
      assert Slashed([Last(pieces)]) == "/" + Last(pieces);
    } else {
      assert Slashes(1) == Slashes(0) + "/";
    }
  }

  /** Pieces printed with a slash before each are split back into the same pieces. */
  lemma SplitSlashed(pieces: seq<string>)
    requires forall w :: w in pieces ==> IsPiece(w)
    ensures Split(Slashed(pieces)) == Ok(pieces)
  {
    hide Spread, Slashed, SplitsInto, IsPiece;
    NothingSlashed();
    if pieces != [] {
      var gaps: seq<nat> := seq(|pieces| + 1, _ => 1);
      var zero: seq<nat> := Init(gaps) + [0];
      assert gaps == Init(zero) + [Last(zero) + 1];
      SlashedIsSpread(pieces);
      SpreadSlash(pieces, zero, gaps);
      assert Init(Slashed(pieces) + "/") == Slashed(pieces);
      SpreadSplits(pieces, zero);
      SplitIs(Spread(pieces, zero), pieces, false);
    }
  }

  lemma NothingSlashed()
    ensures Slashed([]) == "" && Split("") == Ok([])
  {
  }

  lemma SplitIs(s: string, pieces: seq<string>, bounded: bool)
    requires SplitsInto(s, pieces, bounded)
    ensures Split(s) == Ok(pieces)
  {
  }

  /** Splitting normalises: the pieces are well formed, and joined by single slashes
      they are split into themselves again. */
  lemma SplitNormalises(s: string)
    requires Split(s).Ok?
    ensures forall w :: w in Split(s).value ==> IsPiece(w)
    ensures Split(Join(Split(s).value, "/")) == Split(s)
  {
    var pieces := Split(s).value;
    CutYieldsPieces(s);
    SplitSlashed(pieces);
    if pieces != [] {
      var text := Join(pieces, "/");
      SlashedIsJoin(pieces);
      assert ([""] + pieces)[1..] == pieces;
      assert Slashed(pieces) == "/" + text;
      assert Init("/") == "" && IsBoundary("/") && CutUp("/") == Cut([], "");
      ReadPastBoundary("/", text);
      assert [] + CutUp(text).pieces == CutUp(text).pieces;
    }
  }
}
