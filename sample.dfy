/**
  The five-line sample program `programa / int a, b; / read a; /
  printf("la suma es"); / end` run through the six checkers. The semicolon
  checker flags the first and the last line, which end in neither `;`, `{`
  nor `}`; the other five checkers report nothing.
*/
module Sample {
  import opened Wrappers
  import opened Text
  import opened Diagnostics
  import opened Patterns
  import opened Braces
  import opened LineCheckers
  import opened Analysis

  const Program: string := "programa" + "\n" + "int a, b;" + "\n" + "read a;" + "\n" + "printf(\"la suma es\");" + "\n" + "end"

  const ProgramLines: seq<string> := ["programa", "int a, b;", "read a;", "printf(\"la suma es\");", "end"]

  // ---------------------------------------------------------------------------
  // Splitting the program into lines
  // ---------------------------------------------------------------------------

  lemma SplitStep(p: string, t: string)
    requires '\n' !in p
    ensures Split(p + "\n" + t, '\n') == [p] + Split(t, '\n')
  {
    assert p + "\n" + t == p + ['\n'] + t;
    SplitAfterPiece(p, '\n', t);
  }

  /** The program has exactly the five lines of `ProgramLines`. */
  lemma ProgramLinesSplit()
    ensures Lines(Program) == ProgramLines
  {
    var l := ProgramLines;
    var t4 := l[4];
    var t3 := l[3] + "\n" + t4;
    var t2 := l[2] + "\n" + t3;
    var t1 := l[1] + "\n" + t2;
    var t0 := l[0] + "\n" + t1;
    assert t0 == Program;
    SplitNoSeparator(t4, '\n');
    SplitStep(l[3], t4);
    SplitStep(l[2], t3);
    SplitStep(l[1], t2);
    SplitStep(l[0], t1);
    assert Split(Program, '\n') == l;
  }

  /** A checker over five lines is the five single-line reports in order. */
  lemma PerLineFive(ls: seq<string>, check: (string, nat) -> seq<Diagnostic>)
    requires |ls| == 5
    ensures PerLine(ls, check) ==
      check(ls[0], 1) + check(ls[1], 2) + check(ls[2], 3) + check(ls[3], 4) + check(ls[4], 5)
  {
    assert ls[..5][..4] == ls[..4] && ls[..4][..3] == ls[..3];
    assert ls[..3][..2] == ls[..2] && ls[..2][..1] == ls[..1] && ls[..1][..0] == [];
    assert ls[..5] == ls;
    assert PerLine(ls[..1], check) == check(ls[0], 1);
    assert PerLine(ls[..2], check) == check(ls[0], 1) + check(ls[1], 2);
    assert PerLine(ls[..3], check) == check(ls[0], 1) + check(ls[1], 2) + check(ls[2], 3);
    assert PerLine(ls[..4], check) == check(ls[0], 1) + check(ls[1], 2) + check(ls[2], 3) + check(ls[3], 4);
  }

  // ---------------------------------------------------------------------------
  // Single lines without surrounding whitespace
  // ---------------------------------------------------------------------------

  predicate Trimmed(l: string) {
    l != [] && !IsSpace(l[0]) && !IsSpace(l[|l| - 1])
  }

  /** The semicolon checker on a line without surrounding whitespace looks at its last character. */
  lemma SemicolonOfTrimmed(l: string, n: nat)
    requires Trimmed(l) && l[0] != '}'
    ensures MissingSemicolons(l, n) ==
      if l[|l| - 1] == ';' || l[|l| - 1] == '{' || l[|l| - 1] == '}' then [] else [MissingSemicolon(n)]
  {
    StripTrimmed(l);
    assert StartsWith(l, "}") <==> l[0] == '}';
    assert EndsWith(l, ";") <==> l[|l| - 1] == ';';
    assert EndsWith(l, "{") <==> l[|l| - 1] == '{';
    assert EndsWith(l, "}") <==> l[|l| - 1] == '}';
  }

  /** A line not starting with `(` is no call, and one not starting with `i` no declaration. */
  lemma NoCallNoDeclaration(l: string, n: nat)
    requires Trimmed(l) && l[0] != '('
    ensures MalformedCalls(l, n) == []
    ensures l[0] != 'i' ==> VariableDeclarations(l, n) == []
  {
    StripTrimmed(l);
  }

  /** A line that starts with a keyword is skipped by the operator checker. */
  lemma KeywordLineSkipped(l: string, n: nat, k: nat)
    requires k < |ReservedWords| && StartsWith(l, ReservedWords[k])
    ensures MissingOperators(l, n) == []
  {
    assert OccursAt(l, ReservedWords[k], 0);
    ContainsIff(l, ReservedWords[k]);
    MentionsAnyIff(l, ReservedWords);
  }

  /** The pieces of a split hold only characters of the text. */
  lemma {:induction false} SplitPieceChars(s: string, c: char, d: char)
    requires d !in s
    ensures forall k :: 0 <= k < |Split(s, c)| ==> d !in Split(s, c)[k]
    decreases |s|
  {
    if s != [] {
      SplitPieceChars(s[1..], c, d);
    }
  }

  /** A line without a comma never lacks a comma. */
  lemma NoCommaNoReport(l: string, n: nat)
    requires ',' !in l
    ensures MissingCommas(l, n) == []
  {
    var last := LastPiece(l, "int");
    LastPieceSuffix(l, "int");
    forall k | 0 <= k < |last| ensures last[k] != ',' {
      assert last[k] == l[|l| - |last| + k];
    }
    SplitPieceChars(last, ';', ',');
    SplitNoSeparator(DeclaredPart(l), ',');
  }

  // ---------------------------------------------------------------------------
  // The declaration line `int a, b;`
  // ---------------------------------------------------------------------------

  /** In `int a, b;` the text after `int` is ` a, b;`. */
  lemma DeclarationLastPiece(s: string)
    requires s == "int a, b;"
    ensures Contains(s, "int") && LastPiece(s, "int") == " a, b;"
  {
    assert s[0..3] == "int";
    assert Find(s, "int", 0) == Some(0);
    assert s[3..] == " a, b;";
    MissingFirstChar(" a, b;", "int");
    LastPieceSuffix(" a, b;", "int");
  }

  /** The pieces of `int a, b;` between commas are ` a` and ` b`. */
  lemma DeclarationPieces(s: string)
    requires s == "int a, b;"
    ensures Split(DeclaredPart(s), ',') == [" a", " b"]
  {
    DeclarationLastPiece(s);
    assert " a, b;" == " a, b" + [';'] + "";
    SplitAfterPiece(" a, b", ';', "");
    assert DeclaredPart(s) == " a, b";
    assert " a, b" == " a" + [','] + " b";
    SplitAfterPiece(" a", ',', " b");
    SplitNoSeparator(" b", ',');
  }

  lemma DeclarationHasCommas(s: string, n: nat)
    requires s == "int a, b;"
    ensures MissingCommas(s, n) == []
  {
    DeclarationPieces(s);
    var vs := Split(DeclaredPart(s), ',');
    assert !Blank(vs[1]) by {
      assert vs[1][1] == 'b';
    }
    assert !CommaGap(vs, 0);
    assert CommaGaps(vs[..1], n) == [];
  }

  // ---------------------------------------------------------------------------
  // What each line of the sample yields
  // ---------------------------------------------------------------------------

  /** `programa`: a keyword line without the final semicolon. */
  lemma LineOne(l: string, n: nat)
    requires l == "programa"
    ensures MissingCommas(l, n) == [] && MissingOperators(l, n) == []
    ensures MissingSemicolons(l, n) == [MissingSemicolon(n)]
    ensures VariableDeclarations(l, n) == [] && MalformedCalls(l, n) == []
  {
    NoCommaNoReport(l, n);
    KeywordLineSkipped(l, n, 0);
    SemicolonOfTrimmed(l, n);
    NoCallNoDeclaration(l, n);
  }

  /** `int a, b;`: a well-formed declaration. */
  lemma LineTwo(l: string, n: nat)
    requires l == "int a, b;"
    ensures MissingCommas(l, n) == [] && MissingOperators(l, n) == []
    ensures MissingSemicolons(l, n) == []
    ensures VariableDeclarations(l, n) == [] && MalformedCalls(l, n) == []
  {
    DeclarationHasCommas(l, n);
    KeywordLineSkipped(l, n, 1);
    SemicolonOfTrimmed(l, n);
    NoCallNoDeclaration(l, n);
    GoodDeclaration(n);
  }

  /** `read a;`: a keyword line ending in a semicolon. */
  lemma LineThree(l: string, n: nat)
    requires l == "read a;"
    ensures MissingCommas(l, n) == [] && MissingOperators(l, n) == []
    ensures MissingSemicolons(l, n) == []
    ensures VariableDeclarations(l, n) == [] && MalformedCalls(l, n) == []
  {
    NoCommaNoReport(l, n);
    KeywordLineSkipped(l, n, 2);
    SemicolonOfTrimmed(l, n);
    NoCallNoDeclaration(l, n);
  }

  /** `printf("la suma es");`: contains `int`, but no comma. */
  lemma LineFour(l: string, n: nat)
    requires l == "printf(\"la suma es\");"
    ensures MissingCommas(l, n) == [] && MissingOperators(l, n) == []
    ensures MissingSemicolons(l, n) == []
    ensures VariableDeclarations(l, n) == [] && MalformedCalls(l, n) == []
  {
    NoCommaNoReport(l, n);
    KeywordLineSkipped(l, n, 3);
    SemicolonOfTrimmed(l, n);
    NoCallNoDeclaration(l, n);
  }

  /** `end`: a keyword line without the final semicolon. */
  lemma LineFive(l: string, n: nat)
    requires l == "end"
    ensures MissingCommas(l, n) == [] && MissingOperators(l, n) == []
    ensures MissingSemicolons(l, n) == [MissingSemicolon(n)]
    ensures VariableDeclarations(l, n) == [] && MalformedCalls(l, n) == []
  {
    NoCommaNoReport(l, n);
    KeywordLineSkipped(l, n, 4);
    SemicolonOfTrimmed(l, n);
    NoCallNoDeclaration(l, n);
  }

  /** A line checker that is quiet on each of five lines is quiet on all of them. */
  lemma QuietOnFive(ls: seq<string>, check: (string, nat) -> seq<Diagnostic>)
    requires |ls| == 5
    requires check(ls[0], 1) == [] && check(ls[1], 2) == [] && check(ls[2], 3) == []
    requires check(ls[3], 4) == [] && check(ls[4], 5) == []
    ensures PerLine(ls, check) == []
  {
    PerLineFive(ls, check);
  }

  /**
    The sample program's structural errors: a missing semicolon on line 1
    (`programa`) and on line 5 (`end`), and nothing else.
  */
  lemma SampleStructuralErrors(code: string)
    requires code == Program
    ensures StructuralErrors(code) == [MissingSemicolon(1), MissingSemicolon(5)]
  {
    ProgramLinesSplit();
    var ls := Lines(code);
    SampleLineChecks(ls);
    SampleBraces(code);
    ConcatOfEmptyButOne(BraceErrors(code), PerLine(ls, MissingCommas), PerLine(ls, MissingOperators),
      PerLine(ls, MissingSemicolons), PerLine(ls, VariableDeclarations), PerLine(ls, MalformedCalls));
  }

  /** What each line checker reports over the five lines of the sample. */
  lemma SampleLineChecks(ls: seq<string>)
    requires ls == ProgramLines
    ensures PerLine(ls, MissingCommas) == [] && PerLine(ls, MissingOperators) == []
    ensures PerLine(ls, MissingSemicolons) == [MissingSemicolon(1), MissingSemicolon(5)]
    ensures PerLine(ls, VariableDeclarations) == [] && PerLine(ls, MalformedCalls) == []
  {
    LineOne(ls[0], 1);
    LineTwo(ls[1], 2);
    LineThree(ls[2], 3);
    LineFour(ls[3], 4);
    LineFive(ls[4], 5);
    QuietOnFive(ls, MissingCommas);
    QuietOnFive(ls, MissingOperators);
    SemicolonsOnFive(ls);
    QuietOnFive(ls, VariableDeclarations);
    QuietOnFive(ls, MalformedCalls);
  }

  /** The semicolon checker reports the first and the last of five lines when only those lack one. */
  lemma SemicolonsOnFive(ls: seq<string>)
    requires |ls| == 5
    requires MissingSemicolons(ls[0], 1) == [MissingSemicolon(1)] && MissingSemicolons(ls[1], 2) == []
    requires MissingSemicolons(ls[2], 3) == [] && MissingSemicolons(ls[3], 4) == []
    requires MissingSemicolons(ls[4], 5) == [MissingSemicolon(5)]
    ensures PerLine(ls, MissingSemicolons) == [MissingSemicolon(1), MissingSemicolon(5)]
  {
    PerLineFive(ls, MissingSemicolons);
  }

  /** A concatenation of six sequences, all empty but the fourth, is the fourth. */
  lemma ConcatOfEmptyButOne<T>(a: seq<T>, b: seq<T>, c: seq<T>, d: seq<T>, e: seq<T>, f: seq<T>)
    requires a == [] && b == [] && c == [] && e == [] && f == []
    ensures a + b + c + d + e + f == d
  {
    assert a + b + c == [];
    assert d + e + f == d;
  }

  // ---------------------------------------------------------------------------
  // The brace checker on the sample
  // ---------------------------------------------------------------------------

  /** A text with no bracket in either part has none in the whole. */
  lemma NoBracketsAppend(a: string, b: string)
    requires NoBrackets(a) && NoBrackets(b)
    ensures NoBrackets(a + b)
  {
    forall k | 0 <= k < |a + b| ensures !IsOpener((a + b)[k]) && !IsCloser((a + b)[k]) {
      if k >= |a| {
        assert (a + b)[k] == b[k - |a|];
      }
    }
  }

  /** One unfolding of `Layout` at each constructor. */
  lemma LayoutPlain(s: string)
    requires NoBrackets(s)
    ensures WellFormed(Plain(s)) && Layout(Plain(s)) == s
  {
  }

  lemma LayoutWrap(o: char, t: Nest)
    requires IsOpener(o) && WellFormed(t)
    ensures WellFormed(Wrap(o, t)) && Layout(Wrap(o, t)) == [o] + Layout(t) + [CloserOf(o)]
  {
  }

  lemma LayoutBoth(a: Nest, b: Nest)
    requires WellFormed(a) && WellFormed(b)
    ensures WellFormed(Both(a, b)) && Layout(Both(a, b)) == Layout(a) + Layout(b)
  {
  }

  /** Text, a parenthesised text, and text again, none with brackets of their own, nest properly. */
  lemma OneParenthesis(head: string, inner: string, tail: string)
    requires NoBrackets(head) && NoBrackets(inner) && NoBrackets(tail)
    ensures var t := Both(Plain(head), Both(Wrap('(', Plain(inner)), Plain(tail)));
      WellFormed(t) && Layout(t) == head + "(" + inner + ")" + tail
  {
    LayoutPlain(head);
    LayoutPlain(inner);
    LayoutPlain(tail);
    LayoutWrap('(', Plain(inner));
    var w := Wrap('(', Plain(inner));
    LayoutBoth(w, Plain(tail));
    LayoutBoth(Plain(head), Both(w, Plain(tail)));
    assert head + (['('] + inner + [')'] + tail) == head + "(" + inner + ")" + tail;
  }

  /** The sample's only brackets are the parentheses of `printf`. */
  lemma SampleBraces(code: string)
    requires code == Program
    ensures BraceErrors(code) == []
  {
    ProgramLinesSplit();
    var ls := Lines(code);
    ConcatFive(ls);
    var head, inner, tail := ls[0] + ls[1] + ls[2] + "printf", "\"la suma es\"", ";" + ls[4];
    SampleBracketFree(ls, head, inner, tail);
    OneParenthesis(head, inner, tail);
    assert Concat(ls) == head + "(" + inner + ")" + tail;
    NestedTextIsClean(code, Both(Plain(head), Both(Wrap('(', Plain(inner)), Plain(tail))));
  }

  lemma SampleBracketFree(ls: seq<string>, head: string, inner: string, tail: string)
    requires ls == ProgramLines
    requires head == ls[0] + ls[1] + ls[2] + "printf" && inner == "\"la suma es\"" && tail == ";" + ls[4]
    ensures NoBrackets(head) && NoBrackets(inner) && NoBrackets(tail)
    ensures ls[3] == "printf" + "(" + inner + ")" + ";"
  {
    NoBracketsAppend(ls[0], ls[1]);
    NoBracketsAppend(ls[0] + ls[1], ls[2]);
    NoBracketsAppend(ls[0] + ls[1] + ls[2], "printf");
    NoBracketsAppend(";", ls[4]);
  }

  lemma ConcatFive(ls: seq<string>)
    requires |ls| == 5
    ensures Concat(ls) == ls[0] + ls[1] + ls[2] + ls[3] + ls[4]
  {
    assert ls[..5][..4] == ls[..4] && ls[..4][..3] == ls[..3];
    assert ls[..3][..2] == ls[..2] && ls[..2][..1] == ls[..1] && ls[..1][..0] == [];
    assert ls[..5] == ls;
    assert Concat(ls[..1]) == ls[0];
    assert Concat(ls[..2]) == ls[0] + ls[1];
    assert Concat(ls[..3]) == ls[0] + ls[1] + ls[2];
    assert Concat(ls[..4]) == ls[0] + ls[1] + ls[2] + ls[3];
  }
}
