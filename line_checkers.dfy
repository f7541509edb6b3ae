/**
  The five line-by-line checkers of `analizar.py` (lines 79-145). Each is the
  function of one line and its number that the checker's loop body computes;
  `Diagnostics.PerLine` runs it over all lines. The regular expressions they
  use are written out by hand as `re.search`/`re.match` would run them.
*/
module LineCheckers {
  import opened Wrappers
  import opened Text
  import opened Diagnostics
  import opened Patterns

  /** `not s.strip()`: the text is all whitespace (see `Text.StripEmptyIff`). */
  predicate Blank(s: string) { AllSpace(s) }

  // ---------------------------------------------------------------------------
  // check_missing_commas (analizar.py:79-88)
  // ---------------------------------------------------------------------------

  /** `line.split('int')[-1].split(';')[0]`: after the last `int`, up to the first `;`. */
  function DeclaredPart(line: string): string {
    Split(LastPiece(line, "int"), ';')[0]
  }

  /** Piece `i` is not blank and the piece after it is. */
  predicate CommaGap(vs: seq<string>, i: nat)
    requires i + 1 < |vs|
  {
    !Blank(vs[i]) && Blank(vs[i + 1])
  }

  /** The `for i in range(len(vars_list) - 1)` loop: one diagnostic per gap, in order. */
  function CommaGaps(vs: seq<string>, n: nat): (ds: seq<Diagnostic>)
    ensures |ds| < |vs| || |ds| == 0
    ensures forall k :: 0 <= k < |ds| ==> ds[k] == MissingComma(n)
    decreases |vs|
  {
    if |vs| < 2 then []
    else CommaGaps(vs[..|vs| - 1], n) + (if CommaGap(vs, |vs| - 2) then [MissingComma(n)] else [])
  }

  /** There is a report exactly when some non-blank piece is followed by a blank one. */
  lemma {:induction false} CommaGapsIff(vs: seq<string>, n: nat)
    ensures CommaGaps(vs, n) == [] <==> forall i :: 0 <= i < |vs| - 1 ==> !CommaGap(vs, i)
    decreases |vs|
  {
    if |vs| >= 2 {
      var init := vs[..|vs| - 1];
      CommaGapsIff(init, n);
      var last := if CommaGap(vs, |vs| - 2) then [MissingComma(n)] else [];
      assert CommaGaps(vs, n) == CommaGaps(init, n) + last;
      forall i | 0 <= i < |init| - 1 ensures CommaGap(init, i) == CommaGap(vs, i) {
        assert init[i] == vs[i] && init[i + 1] == vs[i + 1];
      }
    }
  }

  /** The positions `i` of the `range(len(vars_list) - 1)` loop at which a gap stands. */
  function GapPositions(vs: seq<string>): set<int> {
    set i | 0 <= i < |vs| - 1 && CommaGap(vs, i)
  }

  /** The loop reports once per gap: as many diagnostics as there are gap positions. */
  lemma {:induction false} CommaGapsCount(vs: seq<string>, n: nat)
    ensures |CommaGaps(vs, n)| == |GapPositions(vs)|
    decreases |vs|
  {
    if |vs| >= 2 {
      CommaGapsCount(vs[..|vs| - 1], n);
      GapPositionsSnoc(vs);
    }
  }

  /** The gap positions of `vs` are those of `vs` without its last piece, and the last position if a gap stands there. */
  lemma GapPositionsSnoc(vs: seq<string>)
    requires |vs| >= 2
    ensures |GapPositions(vs)| == |GapPositions(vs[..|vs| - 1])| + (if CommaGap(vs, |vs| - 2) then 1 else 0)
  {
    var init := vs[..|vs| - 1];
    forall i | 0 <= i < |init| - 1 ensures CommaGap(init, i) == CommaGap(vs, i) {
      assert init[i] == vs[i] && init[i + 1] == vs[i + 1];
    }
    var last := |vs| - 2;
    if CommaGap(vs, last) {
      assert GapPositions(vs) == GapPositions(init) + {last};
      assert last !in GapPositions(init);
    } else {
      assert GapPositions(vs) == GapPositions(init);
    }
  }

  /** The loop body of `check_missing_commas` for line `n`. */
  function MissingCommas(line: string, n: nat): seq<Diagnostic> {
    if Contains(line, "int") then CommaGaps(Split(DeclaredPart(line), ','), n) else []
  }

  /** Some non-blank piece of `vs` is followed by a blank one. */
  predicate HasCommaGap(vs: seq<string>) {
    exists i :: 0 <= i < |vs| - 1 && !Blank(vs[i]) && Blank(vs[i + 1])
  }

  /**
    A line is reported exactly when it mentions `int` anywhere (so `printf`
    lines are examined too) and its declared part has a non-blank piece
    followed by a blank one; every report is the same comma message.
  */
  lemma MissingCommasIff(line: string, n: nat)
    ensures MissingCommas(line, n) != [] <==>
      Contains(line, "int") && HasCommaGap(Split(DeclaredPart(line), ','))
    ensures AllOnLine(MissingCommas(line, n), n)
  {
    var vs := Split(DeclaredPart(line), ',');
    CommaGapsIff(vs, n);
    if Contains(line, "int") {
      if CommaGaps(vs, n) != [] {
        var i :| 0 <= i < |vs| - 1 && CommaGap(vs, i);
        assert !Blank(vs[i]) && Blank(vs[i + 1]);
      } else {
        forall i | 0 <= i < |vs| - 1 ensures !(!Blank(vs[i]) && Blank(vs[i + 1])) {
          assert !CommaGap(vs, i);
        }
      }
    }
    var ds := MissingCommas(line, n);
    assert forall k :: 0 <= k < |ds| ==> ds[k] == MissingComma(n);
  }

  /** `int a, , b, ;` has two gaps, so its one line gets two comma reports. */
  lemma TwoCommaGaps(line: string, n: nat)
    requires line == "int a, , b, ;"
    ensures MissingCommas(line, n) == [MissingComma(n), MissingComma(n)]
  {
    TwoGapsPieces(line);
    TwoGapsReported([" a", " ", " b", " "], n);
  }

  /** The declared part of `int a, , b, ;` splits into ` a`, ` `, ` b` and ` `. */
  lemma TwoGapsPieces(line: string)
    requires line == "int a, , b, ;"
    ensures Contains(line, "int") && Split(DeclaredPart(line), ',') == [" a", " ", " b", " "]
  {
    TwoGapsLastPiece(line);
    TwoGapsDeclaredPart(" a, , b, ;");
    TwoGapsSplit(" a, , b, ");
  }

  /** In `int a, , b, ;` the text after `int` is ` a, , b, ;`. */
  lemma TwoGapsLastPiece(line: string)
    requires line == "int a, , b, ;"
    ensures Contains(line, "int") && LastPiece(line, "int") == " a, , b, ;"
  {
    assert line[0..3] == "int";
    assert Find(line, "int", 0) == Some(0);
    assert line[3..] == " a, , b, ;";
    MissingFirstChar(" a, , b, ;", "int");
    LastPieceSuffix(" a, , b, ;", "int");
  }

  lemma TwoGapsDeclaredPart(t: string)
    requires t == " a, , b, ;"
    ensures Split(t, ';')[0] == " a, , b, "
  {
    assert t == " a, , b, " + [';'] + "";
    SplitAfterPiece(" a, , b, ", ';', "");
  }

  lemma TwoGapsSplit(t: string)
    requires t == " a, , b, "
    ensures Split(t, ',') == [" a", " ", " b", " "]
  {
    assert t == " a" + [','] + " , b, ";
    SplitAfterPiece(" a", ',', " , b, ");
    TwoGapsSplitAfterA(" , b, ");
  }

  lemma TwoGapsSplitAfterA(t: string)
    requires t == " , b, "
    ensures Split(t, ',') == [" ", " b", " "]
  {
    assert t == " " + [','] + " b, ";
    SplitAfterPiece(" ", ',', " b, ");
    TwoGapsSplitLast(" b, ");
  }

  lemma TwoGapsSplitLast(t: string)
    requires t == " b, "
    ensures Split(t, ',') == [" b", " "]
  {
    assert t == " b" + [','] + " ";
    SplitAfterPiece(" b", ',', " ");
    SplitNoSeparator(" ", ',');
  }

  /** Gaps after ` a` and after ` b`: two reports. */
  lemma TwoGapsReported(vs: seq<string>, n: nat)
    requires vs == [" a", " ", " b", " "]
    ensures CommaGaps(vs, n) == [MissingComma(n), MissingComma(n)]
  {
    TwoGapsFirstHalf(vs[..3], n);
    assert vs[..3] == vs[..|vs| - 1];
    assert CommaGap(vs, 2) by {
      assert vs[2][1] == 'b';
    }
  }

  /** In ` a`, ` `, ` b` only the gap after ` a` stands. */
  lemma TwoGapsFirstHalf(vs: seq<string>, n: nat)
    requires vs == [" a", " ", " b"]
    ensures CommaGaps(vs, n) == [MissingComma(n)]
  {
    assert CommaGaps(vs[..2], n) == [MissingComma(n)] by {
      assert vs[..2][..1] == vs[..1];
      assert vs[0][1] == 'a';
    }
    assert vs[..2] == vs[..|vs| - 1];
    assert !CommaGap(vs, 1) by {
      assert vs[2][1] == 'b';
    }
  }

  // ---------------------------------------------------------------------------
  // check_missing_operators (analizar.py:91-104)
  // ---------------------------------------------------------------------------

  /** `any(keyword in line for keyword in ws)`. */
  predicate MentionsAny(line: string, ws: seq<string>)
    decreases |ws|
  {
    ws != [] && (Contains(line, ws[0]) || MentionsAny(line, ws[1..]))
  }

  lemma {:induction false} MentionsAnyIff(line: string, ws: seq<string>)
    ensures MentionsAny(line, ws) <==> exists k :: 0 <= k < |ws| && Contains(line, ws[k])
    decreases |ws|
  {
    if ws != [] {
      MentionsAnyIff(line, ws[1..]);
      if MentionsAny(line, ws[1..]) {
        var k :| 0 <= k < |ws| - 1 && Contains(line, ws[1..][k]);
        assert ws[k + 1] == ws[1..][k];
      }
      if exists k :: 0 <= k < |ws| && Contains(line, ws[k]) {
        var k :| 0 <= k < |ws| && Contains(line, ws[k]);
        if k > 0 {
          assert ws[1..][k - 1] == ws[k];
        }
      }
    }
  }

  /**
    `\b[a-zA-Z_][a-zA-Z0-9_]*\s+[a-zA-Z_][a-zA-Z0-9_]*\b` tried at `i`: the
    end of the match. Every part is greedy and none can give back a character
    and still succeed, so the match is a whole word, all the whitespace after
    it, and the whole word after that.
  */
  function OperatorMatchAt(line: string, i: nat): (r: Option<nat>)
    requires i <= |line|
    ensures r.Some? ==> i < r.value <= |line|
  {
    if i < |line| && AtBoundary(line, i) && IsIdStart(line[i]) then AfterFirstName(line, i + WordRun(line, i))
    else None
  }

  /** The rest of the match after the first name, which ends at `p`. */
  function AfterFirstName(line: string, p: nat): (r: Option<nat>)
    requires p <= |line|
    ensures r.Some? ==> p < r.value <= |line|
  {
    SecondName(line, p, p + SpaceRun(line, p))
  }

  /** The whitespace from `p` ends at `q`; the second name must start there and end at a boundary. */
  function SecondName(line: string, p: nat, q: nat): (r: Option<nat>)
    requires p <= q <= |line|
    ensures r.Some? ==> p < r.value <= |line|
  {
    if p < q < |line| && IsIdStart(line[q]) && AtBoundary(line, q + WordRun(line, q)) then
      Some(q + WordRun(line, q))
    else None
  }

  /** `re.search`: the leftmost position from `from` on where the pattern matches. */
  function SearchOperator(line: string, from: nat): (r: Option<nat>)
    requires from <= |line|
    ensures r.Some? ==> from <= r.value <= |line| && OperatorMatchAt(line, r.value).Some?
    ensures r.Some? ==> forall k :: from <= k < r.value ==> OperatorMatchAt(line, k).None?
    ensures r.None? ==> forall k :: from <= k <= |line| ==> OperatorMatchAt(line, k).None?
    decreases |line| - from
  {
    if OperatorMatchAt(line, from).Some? then Some(from)
    else if from == |line| then None
    else SearchOperator(line, from + 1)
  }

  /** The loop body of `check_missing_operators` for line `n`. */
  function MissingOperators(line: string, n: nat): seq<Diagnostic> {
    if MentionsAny(line, ReservedWords) then []
    else if '"' in line then []
    else
      match SearchOperator(line, 0)
      case None => []
      case Some(i) => [MissingOperator(n, line[i..OperatorMatchAt(line, i).value])]
  }

  /** What an operator match covers: a name, some whitespace, and another name. */
  lemma OperatorMatchShape(line: string, i: nat)
    requires i <= |line| && OperatorMatchAt(line, i).Some?
    ensures var t := line[i..OperatorMatchAt(line, i).value];
      exists a, sp, b :: t == a + sp + b && IsIdentifierName(a) && sp != [] && AllSpace(sp) && IsIdentifierName(b)
  {
    var p, q, e := OperatorMatchOpen(line, i);
    RunsShape(line, i, p, q, e);
    var a, sp, b := line[i..p], line[p..q], line[q..e];
    assert IsIdentifierName(a) && AllSpace(sp) && IsIdentifierName(b);
  }

  /** The runs of an operator match are a name, whitespace and a name. */
  lemma RunsShape(line: string, i: nat, p: nat, q: nat, e: nat)
    requires i < |line| && IsIdStart(line[i]) && p == i + WordRun(line, i)
    requires q == p + SpaceRun(line, p) && p < q < |line| && IsIdStart(line[q]) && e == q + WordRun(line, q)
    ensures line[i..e] == line[i..p] + line[p..q] + line[q..e]
    ensures IsIdentifierName(line[i..p]) && AllSpace(line[p..q]) && IsIdentifierName(line[q..e])
  {
    SliceThree(line, i, p, q, e);
    NameSlice(line, i, p);
    GapSlice(line, p, q);
    NameSlice(line, q, e);
  }

  /** The whitespace run from `p`, ending at `q`, is all whitespace. */
  lemma GapSlice(s: string, p: nat, q: nat)
    requires p <= |s| && q == p + SpaceRun(s, p)
    ensures AllSpace(s[p..q])
  {
    SpaceSlice(s, p);
  }

  /** The word run from a name's first character is a name. */
  lemma NameSlice(s: string, i: nat, e: nat)
    requires i < |s| && IsIdStart(s[i]) && e == i + WordRun(s, i)
    ensures IsIdentifierName(s[i..e])
  {
    WordSlice(s, i);
    var x := s[i..e];
    assert AllWordChars(x) && x[0] == s[i];
  }

  /** The three runs of an operator match. */
  lemma OperatorMatchOpen(line: string, i: nat) returns (p: nat, q: nat, e: nat)
    requires i <= |line| && OperatorMatchAt(line, i).Some?
    ensures i < |line| && AtBoundary(line, i) && IsIdStart(line[i]) && p == i + WordRun(line, i)
    ensures q == p + SpaceRun(line, p) && p < q < |line| && IsIdStart(line[q])
    ensures e == q + WordRun(line, q) && e == OperatorMatchAt(line, i).value && AtBoundary(line, e)
  {
    FirstNameOpen(line, i);
    FirstNameRuns(line, i);
    p := i + WordRun(line, i);
    q := p + SpaceRun(line, p);
    SpaceRuns(line, p, q);
    SecondNameOpen(line, p, q);
    e := q + WordRun(line, q);
    SecondNameRuns(line, p, q, e);
  }

  lemma FirstNameOpen(line: string, i: nat)
    requires i <= |line| && OperatorMatchAt(line, i).Some?
    ensures i < |line| && AtBoundary(line, i) && IsIdStart(line[i])
  {
  }

  lemma SecondNameOpen(line: string, p: nat, q: nat)
    requires p <= q <= |line| && SecondName(line, p, q).Some?
    ensures p < q < |line| && IsIdStart(line[q]) && AtBoundary(line, q + WordRun(line, q))
  {
  }

  /**
    The converse of `OperatorMatchShape`: a name, non-empty whitespace and a
    name standing between word boundaries from `i` to `e` are an operator
    match at `i` that ends at `e`.
  */
  lemma OperatorShapeMatches(line: string, i: nat, e: nat, a: string, sp: string, b: string)
    requires i <= e <= |line| && line[i..e] == a + sp + b
    requires IsIdentifierName(a) && sp != [] && AllSpace(sp) && IsIdentifierName(b)
    requires AtBoundary(line, i) && AtBoundary(line, e)
    ensures OperatorMatchAt(line, i) == Some(e)
  {
    var p, q := ShapeRuns(line, i, e, a, sp, b);
    FirstNameRuns(line, i);
    SpaceRuns(line, p, q);
    SecondNameRuns(line, p, q, e);
  }

  /** The three runs of a name, whitespace and a name between `i` and `e`. */
  lemma ShapeRuns(line: string, i: nat, e: nat, a: string, sp: string, b: string) returns (p: nat, q: nat)
    requires i <= e <= |line| && line[i..e] == a + sp + b
    requires IsIdentifierName(a) && sp != [] && AllSpace(sp) && IsIdentifierName(b) && AtBoundary(line, e)
    ensures i < |line| && IsIdStart(line[i]) && p == i + WordRun(line, i)
    ensures q == p + SpaceRun(line, p) && p < q < |line| && IsIdStart(line[q]) && e == q + WordRun(line, q)
  {
    p := i + |a|;
    q := p + |sp|;
    ShapePieces(line, i, e, a, sp, b);
    assert IsSpace(line[p]) by { CharsAt(line, p, sp); }
    SpaceIsNoWordChar(line[p]);
    NameRunShape(line, i, a);
    GapRunShape(line, p, sp, b);
    NameEndShape(line, q, e, b);
  }

  /** Whitespace at `p` followed by a name is the space run there. */
  lemma GapRunShape(s: string, p: nat, x: string, y: string)
    requires p + |x| + |y| <= |s| && s[p..p + |x|] == x && AllSpace(x)
    requires s[p + |x|..p + |x| + |y|] == y && IsIdentifierName(y)
    ensures SpaceRun(s, p) == |x|
  {
    assert IsIdStart(s[p + |x|]) by { CharsAt(s, p + |x|, y); }
    SpaceRunOf(s, p, x);
  }

  /** A name ending at `e`, a boundary, is the word run there. */
  lemma NameEndShape(s: string, q: nat, e: nat, y: string)
    requires q + |y| == e <= |s| && s[q..e] == y && IsIdentifierName(y) && AtBoundary(s, e)
    ensures IsIdStart(s[q]) && WordRun(s, q) == |y|
  {
    assert IsWordChar(s[e - 1]) by { CharsAt(s, q, y); }
    NameRunShape(s, q, y);
  }

  /** A name standing at `p` and not followed by a word character is the word run there. */
  lemma NameRunShape(s: string, p: nat, x: string)
    requires p + |x| <= |s| && s[p..p + |x|] == x && IsIdentifierName(x)
    requires p + |x| < |s| ==> !IsWordChar(s[p + |x|])
    ensures IsIdStart(s[p]) && WordRun(s, p) == |x|
  {
    CharsAt(s, p, x);
    IdentifierWordChars(x);
    WordRunOf(s, p, x);
  }

  /** Where a name, whitespace and a name stand between `i` and `e`. */
  lemma ShapePieces(line: string, i: nat, e: nat, a: string, sp: string, b: string)
    requires i <= e <= |line| && line[i..e] == a + sp + b
    ensures var p := i + |a|; var q := p + |sp|;
      q + |b| == e && line[i..p] == a && line[p..q] == sp && line[q..e] == b
  {
    var p := i + |a|;
    var q := p + |sp|;
    var t := line[..e];
    assert t[i..] == line[i..e];
    PieceAt(t, i, a, sp + b);
    PieceAt(t, p, sp, b);
    assert line[i..p] == t[i..p] && line[p..q] == t[p..q] && line[q..e] == t[q..];
  }

  lemma FirstNameRuns(line: string, i: nat)
    requires i < |line| && AtBoundary(line, i) && IsIdStart(line[i])
    ensures OperatorMatchAt(line, i) == AfterFirstName(line, i + WordRun(line, i))
  {
  }

  lemma SpaceRuns(line: string, p: nat, q: nat)
    requires p <= |line| && q == p + SpaceRun(line, p)
    ensures AfterFirstName(line, p) == SecondName(line, p, q)
  {
  }

  lemma SecondNameRuns(line: string, p: nat, q: nat, e: nat)
    requires p < q < |line| && IsIdStart(line[q]) && e == q + WordRun(line, q) && AtBoundary(line, e)
    ensures SecondName(line, p, q) == Some(e)
  {
  }

  lemma SpaceIsNoWordChar(c: char)
    requires IsSpace(c)
    ensures !IsWordChar(c)
  {
  }

  /**
    A line that mentions no keyword and holds no `"` is reported as soon as
    a name, whitespace and a name stand in it between word boundaries.
  */
  lemma OperatorShapeReported(line: string, n: nat, i: nat, e: nat, a: string, sp: string, b: string)
    requires !MentionsAny(line, ReservedWords) && '"' !in line
    requires i <= e <= |line| && line[i..e] == a + sp + b
    requires IsIdentifierName(a) && sp != [] && AllSpace(sp) && IsIdentifierName(b)
    requires AtBoundary(line, i) && AtBoundary(line, e)
    ensures |MissingOperators(line, n)| == 1
  {
    OperatorShapeMatches(line, i, e, a, sp, b);
    MissingOperatorsReport(line, n);
  }

  /** The word run from `i` is a string of word characters. */
  lemma WordSlice(s: string, i: nat)
    requires i <= |s|
    ensures AllWordChars(s[i..i + WordRun(s, i)])
  {
    var w := s[i..i + WordRun(s, i)];
    WordRunChars(s, i);
    forall k | 0 <= k < |w| ensures IsWordChar(w[k]) {
      assert w[k] == s[i + k];
    }
  }

  /** The whitespace run from `i` is all whitespace. */
  lemma SpaceSlice(s: string, i: nat)
    requires i <= |s|
    ensures AllSpace(s[i..i + SpaceRun(s, i)])
  {
    var w := s[i..i + SpaceRun(s, i)];
    SpaceRunChars(s, i);
    forall k | 0 <= k < |w| ensures IsSpace(w[k]) {
      assert w[k] == s[i + k];
    }
  }

  /**
    At most one report per line, and only for a line that mentions no
    keyword and holds no `"`; the text it quotes is two names with
    whitespace between them, the leftmost such match on the line.
  */
  lemma MissingOperatorsReport(line: string, n: nat)
    ensures var ds := MissingOperators(line, n);
      |ds| <= 1 && AllOnLine(ds, n) &&
      (ds != [] ==>
        !MentionsAny(line, ReservedWords) && '"' !in line &&
        exists a, sp, b :: ds[0] == MissingOperator(n, a + sp + b) &&
          IsIdentifierName(a) && sp != [] && AllSpace(sp) && IsIdentifierName(b))
    ensures !MentionsAny(line, ReservedWords) && '"' !in line ==>
      (MissingOperators(line, n) == [] <==> forall k :: 0 <= k <= |line| ==> OperatorMatchAt(line, k).None?)
  {
    if !MentionsAny(line, ReservedWords) && '"' !in line {
      match SearchOperator(line, 0)
      case None =>
      case Some(i) =>
        OperatorMatchShape(line, i);
    }
  }

  // ---------------------------------------------------------------------------
  // check_missing_semicolons (analizar.py:107-116)
  // ---------------------------------------------------------------------------

  /** The loop body of `check_missing_semicolons` for line `n`. */
  function MissingSemicolons(line: string, n: nat): seq<Diagnostic> {
    var s := Strip(line);
    if s == [] || EndsWith(s, "{") || StartsWith(s, "}") then []
    else if !EndsWith(s, ";") && !EndsWith(s, "{") && !EndsWith(s, "}") then [MissingSemicolon(n)]
    else []
  }

  /**
    A line is reported exactly when it is not all whitespace and its
    stripped text does not start with `}` and ends in none of `;`, `{`, `}`;
    the report is the one semicolon message.
  */
  lemma MissingSemicolonsIff(line: string, n: nat)
    ensures var s := Strip(line);
      (MissingSemicolons(line, n) != [] <==>
        !AllSpace(line) && !StartsWith(s, "}") && !EndsWith(s, ";") && !EndsWith(s, "{") && !EndsWith(s, "}")) &&
      (MissingSemicolons(line, n) == [] || MissingSemicolons(line, n) == [MissingSemicolon(n)])
  {
    StripEmptyIff(line);
  }

  lemma SemicolonExamples(n: nat)
    ensures MissingSemicolons("int a, b", n) == [MissingSemicolon(n)]
    ensures MissingSemicolons("int a, b;", n) == []
  {
    StripTrimmed("int a, b");
    StripTrimmed("int a, b;");
  }

  // ---------------------------------------------------------------------------
  // check_variable_declarations (analizar.py:119-136)
  // ---------------------------------------------------------------------------

  /**
    The tail `(\s*,\s*ID)*\s*;` of the declaration pattern, from `p`, just
    after a name. A name is a whole word (a shorter one would be followed by
    a word character, which nothing in the pattern accepts there), so the
    repetition can be taken greedily: after optional whitespace comes `;`,
    or `,` and then the next name.
  */
  predicate DeclarationTail(s: string, p: nat)
    requires p <= |s|
    decreases |s| - p, 1
  {
    var q := p + SpaceRun(s, p);
    q < |s| && (s[q] == ';' || (s[q] == ',' && NameAfterComma(s, q + 1)))
  }

  /** After a comma at `c - 1`: optional whitespace, a whole name, and the rest of the tail. */
  predicate NameAfterComma(s: string, c: nat)
    requires c <= |s|
    decreases |s| - c, 0
  {
    var r := c + SpaceRun(s, c);
    r < |s| && IsIdStart(s[r]) && DeclarationTail(s, r + WordRun(s, r))
  }

  /** `re.match(r'int\s+ID(\s*,\s*ID)*\s*;', s)`: the pattern matches a prefix of `s`. */
  predicate DeclarationMatch(s: string) {
    StartsWith(s, "int") &&
    var p := 3 + SpaceRun(s, 3);
    3 < p < |s| && IsIdStart(s[p]) && DeclarationTail(s, p + WordRun(s, p))
  }

  /** One repetition of `(\s*,\s*ID)`: whitespace, a comma, whitespace and a name. */
  datatype Further = Further(before: string, after: string, name: string)

  predicate FurtherShaped(more: seq<Further>) {
    forall k :: 0 <= k < |more| ==>
      AllSpace(more[k].before) && AllSpace(more[k].after) && IsIdentifierName(more[k].name)
  }

  /** The text of the repetitions `more`, then whitespace `w`, `;` and any text `rest`. */
  function TailSpelled(more: seq<Further>, w: string, rest: string): string
    decreases |more|
  {
    if more == [] then w + ([';'] + rest)
    else more[0].before + ([','] + (more[0].after + (more[0].name + TailSpelled(more[1..], w, rest))))
  }

  /**
    `s` begins with a declaration: `int`, non-empty whitespace `sp`, a name,
    any number of further comma-separated names, whitespace `w` and `;`,
    followed by any text `rest`.
  */
  predicate DeclarationText(s: string, sp: string, first: string, more: seq<Further>, w: string, rest: string) {
    s == "int" + (sp + (first + TailSpelled(more, w, rest))) &&
    sp != [] && AllSpace(sp) && IsIdentifierName(first) && FurtherShaped(more) && AllSpace(w)
  }

  /** From `p` on, `s` is repetitions, whitespace, `;` and any rest. */
  predicate TailText(s: string, p: nat, more: seq<Further>, w: string, rest: string)
    requires p <= |s|
  {
    s[p..] == TailSpelled(more, w, rest) && FurtherShaped(more) && AllSpace(w)
  }

  /**
    The matcher accepts exactly the texts that begin with a declaration, so
    `re.match` lets any text follow the `;`.
  */
  lemma DeclarationMatchIff(s: string)
    ensures DeclarationMatch(s) <==> exists sp, first, more, w, rest :: DeclarationText(s, sp, first, more, w, rest)
  {
    if DeclarationMatch(s) {
      var sp, first, more, w, rest := DeclarationWitness(s);
    }
    if exists sp, first, more, w, rest :: DeclarationText(s, sp, first, more, w, rest) {
      var sp, first, more, w, rest :| DeclarationText(s, sp, first, more, w, rest);
      DeclarationParts(s, sp, first, more, w, rest);
    }
  }

  /** Text after a declaration does not stop the pattern from matching. */
  lemma DeclarationPrefix(s: string, t: string)
    requires DeclarationMatch(s)
    ensures DeclarationMatch(s + t)
  {
    var sp, first, more, w, rest := DeclarationWitness(s);
    DeclarationTextExtends(s, t, sp, first, more, w, rest);
    DeclarationParts(s + t, sp, first, more, w, rest + t);
  }

  /** The pieces of a text the matcher accepts. */
  lemma DeclarationWitness(s: string) returns (sp: string, first: string, more: seq<Further>, w: string, rest: string)
    requires DeclarationMatch(s)
    ensures DeclarationText(s, sp, first, more, w, rest)
  {
    var p := 3 + SpaceRun(s, 3);
    var e := p + WordRun(s, p);
    DeclarationOpen(s);
    more, w, rest := TailToText(s, e);
    DeclarationAssembled(s, p, e, more, w, rest);
    sp, first := s[3..p], s[p..e];
  }

  lemma DeclarationTextExtends(s: string, t: string, sp: string, first: string, more: seq<Further>, w: string, rest: string)
    requires DeclarationText(s, sp, first, more, w, rest)
    ensures DeclarationText(s + t, sp, first, more, w, rest + t)
  {
    var tail := TailSpelled(more, w, rest);
    TailSpelledAppend(more, w, rest, t);
    assert s + t == "int" + (sp + (first + (tail + t)));
  }

  lemma {:induction false} TailSpelledAppend(more: seq<Further>, w: string, rest: string, t: string)
    ensures TailSpelled(more, w, rest) + t == TailSpelled(more, w, rest + t)
    decreases |more|
  {
    if more == [] {
      assert (w + ([';'] + rest)) + t == w + ([';'] + (rest + t));
    } else {
      var m := more[0];
      var x := TailSpelled(more[1..], w, rest);
      TailSpelledAppend(more[1..], w, rest, t);
      assert (m.before + ([','] + (m.after + (m.name + x)))) + t ==
        m.before + ([','] + (m.after + (m.name + (x + t))));
    }
  }

  /** The slice from `p` splits where `x` ends. */
  lemma PieceAt(s: string, p: nat, x: string, y: string)
    requires p <= |s| && s[p..] == x + y
    ensures p + |x| <= |s| && s[p..p + |x|] == x && s[p + |x|..] == y
  {
    assert s[p..][..|x|] == x;
    assert s[p..][|x|..] == y;
  }

  /** The slice from `i` is the slice up to `j` and the slice from `j`. */
  lemma SliceSplit(s: string, i: nat, j: nat)
    requires i <= j <= |s|
    ensures s[i..] == s[i..j] + s[j..]
  {
  }

  /** The slice from `i` to `e` is its three parts. */
  lemma SliceThree(s: string, i: nat, p: nat, q: nat, e: nat)
    requires i <= p <= q <= e <= |s|
    ensures s[i..e] == s[i..p] + s[p..q] + s[q..e]
  {
  }

  /** Where `x` stands in `s`, its characters are `s`'s. */
  lemma CharsAt(s: string, p: nat, x: string)
    requires p + |x| <= |s| && s[p..p + |x|] == x
    ensures forall k :: p <= k < p + |x| ==> s[k] == x[k - p]
  {
    forall k | p <= k < p + |x| ensures s[k] == x[k - p] {
      assert s[p..p + |x|][k - p] == s[k];
    }
  }

  // The matcher's predicates, one unfolding at a time.

  lemma DeclarationOpen(s: string)
    requires DeclarationMatch(s)
    ensures var p := 3 + SpaceRun(s, 3);
      StartsWith(s, "int") && 3 < p < |s| && IsIdStart(s[p]) && DeclarationTail(s, p + WordRun(s, p))
  {
  }

  lemma DeclarationClose(s: string, p: nat, e: nat)
    requires StartsWith(s, "int") && p == 3 + SpaceRun(s, 3) && 3 < p < |s| && IsIdStart(s[p])
    requires e == p + WordRun(s, p) && DeclarationTail(s, e)
    ensures DeclarationMatch(s)
  {
  }

  lemma TailOpen(s: string, p: nat) returns (q: nat)
    requires p <= |s| && DeclarationTail(s, p)
    ensures q == p + SpaceRun(s, p) && q < |s|
    ensures s[q] == ';' || (s[q] == ',' && NameAfterComma(s, q + 1))
  {
    q := p + SpaceRun(s, p);
  }

  lemma SemicolonTail(s: string, p: nat, q: nat)
    requires p <= |s| && q == p + SpaceRun(s, p) && q < |s| && s[q] == ';'
    ensures DeclarationTail(s, p)
  {
  }

  lemma CommaTail(s: string, p: nat, q: nat)
    requires p <= |s| && q == p + SpaceRun(s, p) && q < |s| && s[q] == ','
    requires NameAfterComma(s, q + 1)
    ensures DeclarationTail(s, p)
  {
  }

  lemma NameOpen(s: string, c: nat) returns (r: nat, e: nat)
    requires c <= |s| && NameAfterComma(s, c)
    ensures r == c + SpaceRun(s, c) && r < |s| && IsIdStart(s[r])
    ensures e == r + WordRun(s, r) && DeclarationTail(s, e)
  {
    r := c + SpaceRun(s, c);
    e := r + WordRun(s, r);
  }

  lemma NameTail(s: string, c: nat, r: nat, e: nat)
    requires c <= |s| && r == c + SpaceRun(s, c) && r < |s| && IsIdStart(s[r])
    requires e == r + WordRun(s, r) && DeclarationTail(s, e)
    ensures NameAfterComma(s, c)
  {
  }

  // From the matcher to the text.

  /** The runs the matcher takes from 3 give a declaration text. */
  lemma DeclarationAssembled(s: string, p: nat, e: nat, more: seq<Further>, w: string, rest: string)
    requires StartsWith(s, "int") && p == 3 + SpaceRun(s, 3) && 3 < p < |s| && IsIdStart(s[p])
    requires e == p + WordRun(s, p) && TailText(s, e, more, w, rest)
    ensures DeclarationText(s, s[3..p], s[p..e], more, w, rest)
  {
    GapSlice(s, 3, p);
    NameSlice(s, p, e);
    DeclarationJoined(s, p, e, TailSpelled(more, w, rest));
  }

  lemma DeclarationJoined(s: string, p: nat, e: nat, t: string)
    requires StartsWith(s, "int") && 3 <= p <= e <= |s| && s[e..] == t
    ensures s == "int" + (s[3..p] + (s[p..e] + t))
  {
    SliceSplit(s, p, e);
    SliceSplit(s, 3, p);
    SliceSplit(s, 0, 3);
    assert s[0..3] == "int";
    assert s[0..] == s;
  }

  /** Whatever the matcher's tail accepts is repetitions, whitespace, `;` and a rest. */
  lemma {:induction false} TailToText(s: string, p: nat) returns (more: seq<Further>, w: string, rest: string)
    requires p <= |s| && DeclarationTail(s, p)
    ensures TailText(s, p, more, w, rest)
    decreases |s| - p
  {
    var q := TailOpen(s, p);
    if s[q] == ';' {
      more := [];
      w, rest := TailEnds(s, p, q);
    } else {
      var r, e := NameOpen(s, q + 1);
      var more';
      more', w, rest := TailToText(s, e);
      more := FurtherSnoc(s, p, q, r, e, more', w, rest);
    }
  }

  /** Whitespace and `;` from `p` end the tail with no further names. */
  lemma TailEnds(s: string, p: nat, q: nat) returns (w: string, rest: string)
    requires p <= |s| && q == p + SpaceRun(s, p) && q < |s| && s[q] == ';'
    ensures w == s[p..q] && rest == s[q + 1..] && TailText(s, p, [], w, rest)
  {
    w, rest := s[p..q], s[q + 1..];
    SpaceSlice(s, p);
    SliceSplit(s, p, q);
    assert s[q..] == [s[q]] + s[q + 1..];
    assert [s[q]] == [';'];
  }

  /** One repetition read off the text, in front of the repetitions after it. */
  lemma FurtherSnoc(s: string, p: nat, q: nat, r: nat, e: nat, more: seq<Further>, w: string, rest: string)
    returns (all: seq<Further>)
    requires p <= q < r < e <= |s| && s[q] == ',' && IsIdStart(s[r])
    requires q == p + SpaceRun(s, p) && r == q + 1 + SpaceRun(s, q + 1) && e == r + WordRun(s, r)
    requires TailText(s, e, more, w, rest)
    ensures all == [Further(s[p..q], s[q + 1..r], s[r..e])] + more && TailText(s, p, all, w, rest)
  {
    var m := Further(s[p..q], s[q + 1..r], s[r..e]);
    all := [m] + more;
    SpaceSlice(s, p);
    SpaceSlice(s, q + 1);
    WordSlice(s, r);
    assert IsIdentifierName(m.name) by {
      assert m.name[0] == s[r];
    }
    ShapedCons(m, more);
    FurtherSpelled(s, p, q, r, e, m, more, w, rest);
  }

  lemma FurtherSpelled(s: string, p: nat, q: nat, r: nat, e: nat, m: Further, more: seq<Further>, w: string, rest: string)
    requires p <= q < r <= e <= |s| && s[q] == ',' && m == Further(s[p..q], s[q + 1..r], s[r..e])
    requires s[e..] == TailSpelled(more, w, rest)
    ensures s[p..] == TailSpelled([m] + more, w, rest)
  {
    var x := TailSpelled(more, w, rest);
    SliceSplit(s, r, e);
    assert s[r..] == m.name + x;
    SliceSplit(s, q + 1, r);
    assert s[q + 1..] == m.after + (m.name + x);
    assert s[q..] == [s[q]] + s[q + 1..];
    assert [s[q]] == [','];
    SliceSplit(s, p, q);
    var all := [m] + more;
    assert all[1..] == more && all[0] == m;
  }

  lemma ShapedCons(m: Further, more: seq<Further>)
    requires AllSpace(m.before) && AllSpace(m.after) && IsIdentifierName(m.name)
    requires FurtherShaped(more)
    ensures FurtherShaped([m] + more)
  {
    var all := [m] + more;
    forall k | 0 < k < |all| ensures all[k] == more[k - 1] {
    }
  }

  // From the text to the matcher.

  /** A declaration text has the runs the matcher takes. */
  lemma DeclarationParts(s: string, sp: string, first: string, more: seq<Further>, w: string, rest: string)
    requires DeclarationText(s, sp, first, more, w, rest)
    ensures DeclarationMatch(s)
  {
    var p := 3 + |sp|;
    var e := p + |first|;
    DeclarationPieces(s, sp, first, TailSpelled(more, w, rest));
    assert StartsWith(s, "int") by {
      assert s[..3] == s[0..3];
    }
    assert s[p] == s[p..e][0];
    SpaceRunOf(s, 3, sp);
    FirstNotWord(more, w, rest);
    assert s[e] == s[e..][0];
    IdentifierWordChars(first);
    WordRunOf(s, p, first);
    TailFromText(s, e, more, w, rest);
    DeclarationClose(s, p, e);
  }

  lemma DeclarationPieces(s: string, sp: string, first: string, t: string)
    requires s == "int" + (sp + (first + t))
    ensures var p := 3 + |sp|; var e := p + |first|;
      e <= |s| && s[0..3] == "int" && s[3..p] == sp && s[p..e] == first && s[e..] == t
  {
    assert s[0..] == s;
    PieceAt(s, 0, "int", sp + (first + t));
    PieceAt(s, 3, sp, first + t);
    PieceAt(s, 3 + |sp|, first, t);
  }

  /** What follows a name in a declaration starts with whitespace, `,` or `;`. */
  lemma FirstNotWord(more: seq<Further>, w: string, rest: string)
    requires FurtherShaped(more) && AllSpace(w)
    ensures var t := TailSpelled(more, w, rest); |t| > 0 && !IsWordChar(t[0])
  {
    if more != [] {
      var m := more[0];
      if m.before != [] {
        SpaceIsNoWordChar(m.before[0]);
      }
    } else if w != [] {
      SpaceIsNoWordChar(w[0]);
    }
  }

  /** The repetitions and the final `;` from `p` satisfy the matcher's tail. */
  lemma {:induction false} TailFromText(s: string, p: nat, more: seq<Further>, w: string, rest: string)
    requires p <= |s| && TailText(s, p, more, w, rest)
    ensures DeclarationTail(s, p)
    decreases |more|
  {
    if more == [] {
      var q := SemicolonAt(s, p, w, rest);
      SemicolonTail(s, p, q);
    } else {
      var q, r, e := FurtherEnds(s, p, more, w, rest);
      TailFromText(s, e, more[1..], w, rest);
      NameTail(s, q + 1, r, e);
      CommaTail(s, p, q);
    }
  }

  /** Whitespace `w` and `;` from `p`: the run stops at the `;`. */
  lemma SemicolonAt(s: string, p: nat, w: string, rest: string) returns (q: nat)
    requires p <= |s| && s[p..] == w + ([';'] + rest) && AllSpace(w)
    ensures q == p + SpaceRun(s, p) && q < |s| && s[q] == ';'
  {
    q := p + |w|;
    PieceAt(s, p, w, [';'] + rest);
    CharsAt(s, p, w);
    assert s[q] == s[q..][0];
    SpaceRunStops(s, p, q);
  }

  /** The first repetition from `p`: its comma at `q`, its name from `r` to `e`. */
  lemma FurtherEnds(s: string, p: nat, more: seq<Further>, w: string, rest: string) returns (q: nat, r: nat, e: nat)
    requires p <= |s| && TailText(s, p, more, w, rest) && more != []
    ensures q == p + SpaceRun(s, p) && q < |s| && s[q] == ','
    ensures r == q + 1 + SpaceRun(s, q + 1) && r < |s| && IsIdStart(s[r])
    ensures e == r + WordRun(s, r) && e <= |s| && TailText(s, e, more[1..], w, rest)
  {
    var m := more[0];
    q, r, e := FurtherPieces(s, p, m, TailSpelled(more[1..], w, rest));
    FirstNotWord(more[1..], w, rest);
    FurtherRuns(s, p, q, r, e, m);
  }

  lemma FurtherPieces(s: string, p: nat, m: Further, t: string) returns (q: nat, r: nat, e: nat)
    requires p <= |s| && s[p..] == m.before + ([','] + (m.after + (m.name + t)))
    ensures q == p + |m.before| && r == q + 1 + |m.after| && e == r + |m.name| && e <= |s|
    ensures s[p..q] == m.before && s[q] == ',' && s[q + 1..r] == m.after && s[r..e] == m.name && s[e..] == t
  {
    q := p + |m.before|;
    r := q + 1 + |m.after|;
    e := r + |m.name|;
    PieceAt(s, p, m.before, [','] + (m.after + (m.name + t)));
    PieceAt(s, q, [','], m.after + (m.name + t));
    assert s[q] == s[q..q + 1][0];
    PieceAt(s, q + 1, m.after, m.name + t);
    PieceAt(s, r, m.name, t);
  }

  lemma FurtherRuns(s: string, p: nat, q: nat, r: nat, e: nat, m: Further)
    requires q == p + |m.before| && r == q + 1 + |m.after| && e == r + |m.name| && e <= |s|
    requires s[p..q] == m.before && s[q] == ',' && s[q + 1..r] == m.after && s[r..e] == m.name
    requires AllSpace(m.before) && AllSpace(m.after) && IsIdentifierName(m.name)
    requires e < |s| ==> !IsWordChar(s[e])
    ensures q == p + SpaceRun(s, p) && r == q + 1 + SpaceRun(s, q + 1) && r < |s| && IsIdStart(s[r])
    ensures e == r + WordRun(s, r)
  {
    SpaceBeforeComma(s, p, q, m.before);
    NameAfterSpace(s, q + 1, r, e, m.after, m.name);
  }

  /** Whitespace `x` from `p` up to a comma at `q` is the whitespace run from `p`. */
  lemma SpaceBeforeComma(s: string, p: nat, q: nat, x: string)
    requires q == p + |x| < |s| && s[p..q] == x && AllSpace(x) && s[q] == ','
    ensures q == p + SpaceRun(s, p)
  {
    SpaceRunOf(s, p, x);
  }

  /** Whitespace `x` from `c` and then a name `y` ending at `e` are the runs from `c`. */
  lemma NameAfterSpace(s: string, c: nat, r: nat, e: nat, x: string, y: string)
    requires r == c + |x| && e == r + |y| && e <= |s| && s[c..r] == x && s[r..e] == y
    requires AllSpace(x) && IsIdentifierName(y) && (e < |s| ==> !IsWordChar(s[e]))
    ensures r == c + SpaceRun(s, c) && r < |s| && IsIdStart(s[r]) && e == r + WordRun(s, r)
  {
    GapRunShape(s, c, x, y);
    NameRunShape(s, r, y);
  }

  /** A whitespace text `x` standing at `p` and not followed by whitespace is the run from `p`. */
  lemma SpaceRunOf(s: string, p: nat, x: string)
    requires p + |x| <= |s| && s[p..p + |x|] == x && AllSpace(x)
    requires p + |x| < |s| ==> !IsSpace(s[p + |x|])
    ensures SpaceRun(s, p) == |x|
  {
    CharsAt(s, p, x);
    SpaceRunStops(s, p, p + |x|);
  }

  /** A word text `x` standing at `p` and not followed by a word character is the run from `p`. */
  lemma WordRunOf(s: string, p: nat, x: string)
    requires p + |x| <= |s| && s[p..p + |x|] == x && AllWordChars(x)
    requires p + |x| < |s| ==> !IsWordChar(s[p + |x|])
    ensures WordRun(s, p) == |x|
  {
    CharsAt(s, p, x);
    WordRunStops(s, p, p + |x|);
  }

  lemma IdentifierWordChars(x: string)
    requires IsIdentifierName(x)
    ensures AllWordChars(x)
  {
  }

  /** `[v.strip() for v in stripped_line[len('int'):].strip().rstrip(';').split(',')]`. */
  function DeclaredNames(s: string): (names: seq<string>)
    requires |s| >= 3
    ensures |names| == |Split(RStripChar(Strip(s[3..]), ';'), ',')|
  {
    var parts := Split(RStripChar(Strip(s[3..]), ';'), ',');
    seq(|parts|, k requires 0 <= k < |parts| => Strip(parts[k]))
  }

  /** The `for var in variables` loop: one report per name that is not an identifier. */
  function BadNames(names: seq<string>, n: nat): (ds: seq<Diagnostic>)
    ensures |ds| <= |names|
    ensures forall k :: 0 <= k < |ds| ==> ds[k] == BadVariable(n)
    ensures ds == [] <==> forall k :: 0 <= k < |names| ==> IsIdentifierName(names[k])
  {
    if names == [] then []
    else
      var init := names[..|names| - 1];
      assert forall k :: 0 <= k < |init| ==> init[k] == names[k];
      BadNames(init, n) + (if IsIdentifierName(names[|names| - 1]) then [] else [BadVariable(n)])
  }

  /** The loop body of `check_variable_declarations` for line `n`. */
  function VariableDeclarations(line: string, n: nat): seq<Diagnostic> {
    var s := Strip(line);
    if !StartsWith(s, "int") then []
    else if !DeclarationMatch(s) then [MalformedDeclaration(n)]
    else BadNames(DeclaredNames(s), n)
  }

  /**
    A line starting with `int` has no report exactly when the declaration
    pattern matches a prefix of it and every comma-separated name is an
    identifier; a line that does not is never reported.
  */
  lemma VariableDeclarationsClean(line: string, n: nat)
    ensures var s := Strip(line);
      (VariableDeclarations(line, n) == [] <==>
        !StartsWith(s, "int") ||
        (DeclarationMatch(s) && forall k :: 0 <= k < |DeclaredNames(s)| ==> IsIdentifierName(DeclaredNames(s)[k])))
    ensures AllOnLine(VariableDeclarations(line, n), n)
  {
  }

  /** `int a, b;` is a well-formed declaration of `a` and `b`. */
  lemma GoodDeclaration(n: nat)
    ensures VariableDeclarations("int a, b;", n) == []
  {
    var good := "int a, b;";
    StripTrimmed(good);
    assert StartsWith(good, "int") by {
      assert good[..3] == "int";
    }
    GoodDeclarationMatches(good);
    DeclaredNamesOfGood();
    NamesAB(DeclaredNames(good), n);
  }

  lemma NamesAB(names: seq<string>, n: nat)
    requires names == ["a", "b"]
    ensures BadNames(names, n) == []
  {
    assert IsIdentifierName(names[0]) && IsIdentifierName(names[1]);
  }

  lemma GoodDeclarationMatches(s: string)
    requires s == "int a, b;"
    ensures DeclarationMatch(s)
  {
    assert s[..3] == "int";
    SpaceRunStops(s, 3, 4);
    WordRunStops(s, 4, 5);
    GoodTailFromA(s);
  }

  /** After `a` in `int a, b;` come `, b` and `;`. */
  lemma GoodTailFromA(s: string)
    requires s == "int a, b;"
    ensures DeclarationTail(s, 5)
  {
    SpaceRunStops(s, 5, 5);
    SpaceRunStops(s, 6, 7);
    WordRunStops(s, 7, 8);
    GoodTailFromB(s);
  }

  /** After `b` in `int a, b;` comes `;`. */
  lemma GoodTailFromB(s: string)
    requires s == "int a, b;"
    ensures DeclarationTail(s, 8)
  {
    SpaceRunStops(s, 8, 8);
  }

  lemma DeclaredNamesOfGood()
    ensures DeclaredNames("int a, b;") == ["a", "b"]
  {
    var good := "int a, b;";
    assert good[3..] == " a, b;";
    StripTrimmed("a, b;");
    assert Strip(" a, b;") == "a, b;" by {
      assert LStrip(" a, b;") == LStrip("a, b;");
    }
    assert RStripChar("a, b;", ';') == "a, b";
    SplitAfterPiece("a", ',', " b");
    SplitNoSeparator(" b", ',');
    assert Split("a, b", ',') == ["a", " b"] by {
      assert "a, b" == "a" + [','] + " b";
    }
    StripTrimmed("a");
    StripTrimmed("b");
    assert Strip(" b") == "b" by {
      assert LStrip(" b") == LStrip("b");
    }
  }

  /** `int a b;` lacks the comma: the declaration pattern fails and the line gets one report. */
  lemma MissingCommaDeclaration(n: nat)
    ensures VariableDeclarations("int a b;", n) == [MalformedDeclaration(n)]
  {
    var bad := "int a b;";
    StripTrimmed(bad);
    assert bad[..3] == "int";
    NoCommaNoMatch(bad);
  }

  /** In `int a b;` the name `a` is followed by whitespace and `b`, neither `,` nor `;`. */
  lemma NoCommaNoMatch(bad: string)
    requires bad == "int a b;"
    ensures !DeclarationMatch(bad)
  {
    SpaceRunStops(bad, 3, 4);
    WordRunStops(bad, 4, 5);
    NoTailAfterA(bad);
  }

  lemma NoTailAfterA(bad: string)
    requires bad == "int a b;"
    ensures !DeclarationTail(bad, 5)
  {
    SpaceRunStops(bad, 5, 6);
  }

  // ---------------------------------------------------------------------------
  // check_function_calls (analizar.py:139-145)
  // ---------------------------------------------------------------------------

  /**
    `re.search(r'^\([a-zA-Z0-9_]*\)\s*;$', s)` on a stripped line `s`: the
    whole of `s` is `(`, word characters, `)`, whitespace and `;`.
  */
  predicate CallMatch(s: string) {
    |s| >= 3 && s[0] == '(' &&
    var p := 1 + WordRun(s, 1);
    p < |s| && s[p] == ')' &&
    var q := p + 1 + SpaceRun(s, p + 1);
    q + 1 == |s| && s[q] == ';'
  }

  predicate AllWordChars(w: string) {
    forall k :: 0 <= k < |w| ==> IsWordChar(w[k])
  }

  /** The loop body of `check_function_calls` for line `n`. */
  function MalformedCalls(line: string, n: nat): seq<Diagnostic> {
    if CallMatch(Strip(line)) then [MalformedCall(n)] else []
  }

  /** The matcher accepts exactly the texts `(w)sp;` with `w` word characters and `sp` whitespace. */
  lemma CallMatchIff(s: string)
    ensures CallMatch(s) <==>
      exists w, sp :: s == "(" + w + ")" + sp + ";" && AllWordChars(w) && AllSpace(sp)
  {
    if CallMatch(s) {
      var p := 1 + WordRun(s, 1);
      var q := p + 1 + SpaceRun(s, p + 1);
      var w, sp := s[1..p], s[p + 1..q];
      WordRunChars(s, 1);
      SpaceRunChars(s, p + 1);
      assert s == "(" + w + ")" + sp + ";";
      assert AllWordChars(w) by {
        forall k | 0 <= k < |w| ensures IsWordChar(w[k]) {
          assert w[k] == s[1 + k];
        }
      }
      assert AllSpace(sp) by {
        forall k | 0 <= k < |sp| ensures IsSpace(sp[k]) {
          assert sp[k] == s[p + 1 + k];
        }
      }
    }
    if exists w, sp :: s == "(" + w + ")" + sp + ";" && AllWordChars(w) && AllSpace(sp) {
      var w, sp :| s == "(" + w + ")" + sp + ";" && AllWordChars(w) && AllSpace(sp);
      CallParts(s, w, sp);
    }
  }

  lemma CallParts(s: string, w: string, sp: string)
    requires s == "(" + w + ")" + sp + ";" && AllWordChars(w) && AllSpace(sp)
    ensures CallMatch(s)
  {
    var p := 1 + |w|;
    assert forall k :: 1 <= k < p ==> s[k] == w[k - 1];
    WordRunStops(s, 1, p);
    assert forall k :: p + 1 <= k < p + 1 + |sp| ==> s[k] == sp[k - p - 1];
    SpaceRunStops(s, p + 1, p + 1 + |sp|);
  }

  lemma {:induction false} WordRunStops(s: string, i: nat, j: nat)
    requires i <= j <= |s| && (forall k :: i <= k < j ==> IsWordChar(s[k])) && (j == |s| || !IsWordChar(s[j]))
    ensures WordRun(s, i) == j - i
    decreases j - i
  {
    if i < j {
      WordRunStops(s, i + 1, j);
    }
  }

  lemma {:induction false} SpaceRunStops(s: string, i: nat, j: nat)
    requires i <= j <= |s| && (forall k :: i <= k < j ==> IsSpace(s[k])) && (j == |s| || !IsSpace(s[j]))
    ensures SpaceRun(s, i) == j - i
    decreases j - i
  {
    if i < j {
      SpaceRunStops(s, i + 1, j);
    }
  }

  /** A text the matcher accepts holds no `"`. */
  lemma CallHasNoQuote(s: string)
    ensures CallMatch(s) ==> '"' !in s
  {
    if CallMatch(s) {
      var p := 1 + WordRun(s, 1);
      var q := p + 1 + SpaceRun(s, p + 1);
      WordRunChars(s, 1);
      SpaceRunChars(s, p + 1);
      forall k | 0 <= k < |s| ensures s[k] != '"' {
        if 1 <= k < p {
          assert IsWordChar(s[k]);
        } else if p < k < q {
          assert IsSpace(s[k]);
        }
      }
    }
  }

  /**
    A stripped line holding a `"` is never reported, so a loose string such
    as `("la suma es");` goes unnoticed.
  */
  lemma QuotedTextIsNoCall(line: string, n: nat)
    requires '"' in Strip(line)
    ensures MalformedCalls(line, n) == []
  {
    CallHasNoQuote(Strip(line));
  }

  // ---------------------------------------------------------------------------
  // All five checkers are line-local
  // ---------------------------------------------------------------------------

  lemma CheckersAreLineLocal()
    ensures LineLocal(MissingCommas) && LineLocal(MissingOperators) && LineLocal(MissingSemicolons)
    ensures LineLocal(VariableDeclarations) && LineLocal(MalformedCalls)
  {
    forall line, n ensures AllOnLine(MissingCommas(line, n), n) {
      MissingCommasIff(line, n);
    }
    forall line, n ensures AllOnLine(MissingOperators(line, n), n) {
      MissingOperatorsReport(line, n);
    }
    forall line, n ensures AllOnLine(VariableDeclarations(line, n), n) {
      VariableDeclarationsClean(line, n);
    }
  }
}
