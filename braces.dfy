/**
  `check_parentheses_and_braces` (analizar.py:56-76): one stack of open
  brackets across all lines. An opener is pushed with its line number; a
  closer pops its own opener off the top, or else is reported with its own
  character and leaves the stack as it was; whatever is still open at the
  end is popped, most recent first, and reported at the line it was opened on.

  `BraceScan` is the loop as a function over the characters of the text,
  each paired with its line number; `CheckParenthesesAndBraces` is the loop
  itself and is proved to compute `BraceErrors`.
*/
module Braces {
  import opened Text
  import opened Diagnostics

  predicate IsOpener(c: char) { c == '(' || c == '{' }

  predicate IsCloser(c: char) { c == ')' || c == '}' }

  /** The table `closing`. */
  function OpenerOf(c: char): char
    requires IsCloser(c)
  {
    if c == ')' then '(' else '{'
  }

  /** The table `opening`. */
  function CloserOf(c: char): char
    requires IsOpener(c)
  {
    if c == '(' then ')' else '}'
  }

  /** A character of the text and the number of its line. */
  type Position = (char, nat)

  /** The open brackets (each with the line it was opened on) and the errors so far. */
  datatype BraceState = BraceState(stack: seq<Position>, errors: seq<Diagnostic>)

  const Start := BraceState([], [])

  /** The body of the inner `for` loop, for character `c` of line `n`. */
  function BraceStep(s: BraceState, p: Position): BraceState {
    var (c, n) := p;
    if IsOpener(c) then s.(stack := s.stack + [(c, n)])
    else if IsCloser(c) then
      if s.stack == [] || s.stack[|s.stack| - 1].0 != OpenerOf(c) then s.(errors := s.errors + [MissingOpening(n, c)])
      else s.(stack := s.stack[..|s.stack| - 1])
    else s
  }

  /** The two nested `for` loops, over the characters of the text in order. */
  function BraceScan(s: BraceState, ps: seq<Position>): BraceState {
    if ps == [] then s else BraceStep(BraceScan(s, ps[..|ps| - 1]), ps[|ps| - 1])
  }

  /** The characters of line `n`, each paired with `n`. */
  function LinePositions(line: string, n: nat): (ps: seq<Position>)
    ensures |ps| == |line|
    ensures forall k :: 0 <= k < |line| ==> ps[k] == (line[k], n)
  {
    seq(|line|, k requires 0 <= k < |line| => (line[k], n))
  }

  /** The characters of all lines, in order, with their line numbers counted from 1. */
  function Positions(lines: seq<string>): seq<Position> {
    if lines == [] then [] else Positions(lines[..|lines| - 1]) + LinePositions(lines[|lines| - 1], |lines|)
  }

  /**
    The draining `while stack` loop: the open brackets from the top of the
    stack down, each reported at its own line.
  */
  function Unclosed(stack: seq<Position>): (ds: seq<Diagnostic>)
    ensures |ds| == |stack|
    ensures forall k :: 0 <= k < |stack| ==>
      ds[k] == MissingClosing(stack[|stack| - 1 - k].1, stack[|stack| - 1 - k].0)
  {
    if stack == [] then []
    else
      var top := stack[|stack| - 1];
      [MissingClosing(top.1, top.0)] + Unclosed(stack[..|stack| - 1])
  }

  /** What `check_parentheses_and_braces(code)` returns. */
  function BraceErrors(code: string): seq<Diagnostic> {
    var s := BraceScan(Start, Positions(Lines(code)));
    s.errors + Unclosed(s.stack)
  }

  method CheckParenthesesAndBraces(code: string) returns (errors: seq<Diagnostic>)
    ensures errors == BraceErrors(code)
  {
    var lines := Lines(code);
    var stack: seq<Position> := [];
    errors := [];
    var ln := 0;
    while ln < |lines|
      invariant ln <= |lines|
      invariant BraceState(stack, errors) == BraceScan(Start, Positions(lines[..ln]))
    {
      stack, errors := ScanLine(stack, errors, lines[ln], ln + 1);
      NextLine(lines, ln);
      ln := ln + 1;
    }
    assert lines[..ln] == lines;
    while stack != []
      invariant errors + Unclosed(stack) == BraceErrors(code)
      decreases |stack|
    {
      var top := stack[|stack| - 1];
      PopUnclosed(errors, stack);
      stack := stack[..|stack| - 1];
      errors := errors + [MissingClosing(top.1, top.0)];
    }
  }

  /** Scanning the first `ln + 1` lines is scanning the first `ln`, then line `ln + 1`. */
  lemma NextLine(lines: seq<string>, ln: nat)
    requires ln < |lines|
    ensures BraceScan(Start, Positions(lines[..ln + 1])) ==
      BraceScan(BraceScan(Start, Positions(lines[..ln])), LinePositions(lines[ln], ln + 1))
  {
    assert lines[..ln + 1][..ln] == lines[..ln];
    BraceScanAppend(Start, Positions(lines[..ln]), LinePositions(lines[ln], ln + 1));
  }

  /** Reporting the top of the stack and popping it keeps what is reported overall. */
  lemma PopUnclosed(errors: seq<Diagnostic>, stack: seq<Position>)
    requires stack != []
    ensures var top := stack[|stack| - 1];
      (errors + [MissingClosing(top.1, top.0)]) + Unclosed(stack[..|stack| - 1]) == errors + Unclosed(stack)
  {
    var top := stack[|stack| - 1];
    var d, rest := [MissingClosing(top.1, top.0)], Unclosed(stack[..|stack| - 1]);
    assert Unclosed(stack) == d + rest;
    Assoc(errors, d, rest);
  }

  /** The inner `for` loop over the characters of line `n`. */
  method ScanLine(stack0: seq<Position>, errors0: seq<Diagnostic>, line: string, n: nat)
    returns (stack: seq<Position>, errors: seq<Diagnostic>)
    ensures BraceState(stack, errors) == BraceScan(BraceState(stack0, errors0), LinePositions(line, n))
  {
    stack, errors := stack0, errors0;
    var j := 0;
    assert LinePositions(line[..0], n) == [];
    while j < |line|
      invariant j <= |line|
      invariant BraceState(stack, errors) == BraceScan(BraceState(stack0, errors0), LinePositions(line[..j], n))
    {
      var c := line[j];
      assert LinePositions(line[..j + 1], n) == LinePositions(line[..j], n) + [(c, n)];
      if IsOpener(c) {
        stack := stack + [(c, n)];
      } else if IsCloser(c) {
        if stack == [] || stack[|stack| - 1].0 != OpenerOf(c) {
          errors := errors + [MissingOpening(n, c)];
        } else {
          stack := stack[..|stack| - 1];
        }
      }
      j := j + 1;
    }
    assert line[..j] == line;
  }

  // ---------------------------------------------------------------------------
  // Properties
  // ---------------------------------------------------------------------------

  /** Only openers are ever on the stack, and they were opened on a line that has been read. */
  predicate OpenersOnly(stack: seq<Position>, ps: seq<Position>) {
    forall k :: 0 <= k < |stack| ==> IsOpener(stack[k].0) && exists m :: 0 <= m < |ps| && ps[m] == stack[k]
  }

  lemma {:induction false} ScanKeepsOpeners(ps: seq<Position>)
    ensures OpenersOnly(BraceScan(Start, ps).stack, ps)
  {
    if ps != [] {
      var init := ps[..|ps| - 1];
      ScanKeepsOpeners(init);
      var s := BraceScan(Start, init);
      var s' := BraceScan(Start, ps);
      forall k | 0 <= k < |s'.stack|
        ensures IsOpener(s'.stack[k].0) && exists m :: 0 <= m < |ps| && ps[m] == s'.stack[k]
      {
        if k < |s.stack| {
          assert s'.stack[k] == s.stack[k];
          var m :| 0 <= m < |init| && init[m] == s.stack[k];
          assert ps[m] == init[m];
        } else {
          assert s'.stack[k] == ps[|ps| - 1];
        }
      }
    }
  }

  /** A closer that does not close the top of the stack is reported and changes nothing else. */
  lemma MismatchKeepsStack(s: BraceState, c: char, n: nat)
    requires IsCloser(c) && (s.stack == [] || s.stack[|s.stack| - 1].0 != OpenerOf(c))
    ensures BraceStep(s, (c, n)) == BraceState(s.stack, s.errors + [MissingOpening(n, c)])
  {
  }

  /** A closer that matches the top of the stack pops it and reports nothing. */
  lemma MatchPops(s: BraceState, c: char, n: nat)
    requires IsCloser(c) && s.stack != [] && s.stack[|s.stack| - 1].0 == OpenerOf(c)
    ensures BraceStep(s, (c, n)) == BraceState(s.stack[..|s.stack| - 1], s.errors)
  {
  }

  lemma {:induction false} BraceScanAppend(s: BraceState, a: seq<Position>, b: seq<Position>)
    ensures BraceScan(s, a + b) == BraceScan(BraceScan(s, a), b)
    decreases |b|
  {
    if b == [] {
      assert a + b == a;
    } else {
      assert (a + b)[..|a + b| - 1] == a + b[..|b| - 1];
      BraceScanAppend(s, a, b[..|b| - 1]);
    }
  }

  /**
    A properly nested arrangement: text without brackets, a pair of matching
    brackets around a nested arrangement, or two nested arrangements in a row.
  */
  datatype Nest = Plain(s: string) | Wrap(open: char, inner: Nest) | Both(left: Nest, right: Nest)

  predicate NoBrackets(s: string) {
    forall k :: 0 <= k < |s| ==> !IsOpener(s[k]) && !IsCloser(s[k])
  }

  predicate WellFormed(t: Nest) {
    match t
    case Plain(s) => NoBrackets(s)
    case Wrap(o, inner) => IsOpener(o) && WellFormed(inner)
    case Both(l, r) => WellFormed(l) && WellFormed(r)
  }

  function Layout(t: Nest): string
    requires WellFormed(t)
  {
    match t
    case Plain(s) => s
    case Wrap(o, inner) => [o] + Layout(inner) + [CloserOf(o)]
    case Both(l, r) => Layout(l) + Layout(r)
  }

  /** The characters of a sequence of positions. */
  function Chars(ps: seq<Position>): (s: string)
    ensures |s| == |ps| && forall k :: 0 <= k < |ps| ==> s[k] == ps[k].0
  {
    seq(|ps|, k requires 0 <= k < |ps| => ps[k].0)
  }

  lemma {:induction false} NoBracketsKeepState(s: BraceState, ps: seq<Position>)
    requires NoBrackets(Chars(ps))
    ensures BraceScan(s, ps) == s
    decreases |ps|
  {
    if ps != [] {
      var init := ps[..|ps| - 1];
      assert Chars(init) == Chars(ps)[..|init|];
      NoBracketsKeepState(s, init);
      assert Chars(ps)[|ps| - 1] == ps[|ps| - 1].0;
    }
  }

  /** Taking the characters of the positions commutes with slicing. */
  lemma CharsSlice(ps: seq<Position>, i: nat, j: nat)
    requires i <= j <= |ps|
    ensures Chars(ps[i..j]) == Chars(ps)[i..j]
  {
  }

  lemma WrapParts(t: Nest)
    requires t.Wrap? && WellFormed(t)
    ensures var w := Layout(t);
      |w| == |Layout(t.inner)| + 2 &&
      w[0] == t.open && w[1..|w| - 1] == Layout(t.inner) && w[|w| - 1] == CloserOf(t.open)
  {
    var w := Layout(t);
    assert w == [t.open] + Layout(t.inner) + [CloserOf(t.open)];
  }

  /** Opening a bracket and closing it again gives back the state before. */
  lemma PushPop(s: BraceState, o: char, n: nat, m: nat)
    requires IsOpener(o)
    ensures BraceStep(BraceStep(s, (o, n)), (CloserOf(o), m)) == s
  {
    var pushed := BraceStep(s, (o, n));
    assert pushed.stack[..|pushed.stack| - 1] == s.stack;
  }

  /**
    Scanning properly nested brackets, on whatever lines they stand, leaves
    the stack and the errors exactly as they were.
  */
  lemma {:induction false} NestedKeepsState(t: Nest, s: BraceState, ps: seq<Position>)
    requires WellFormed(t) && Chars(ps) == Layout(t)
    ensures BraceScan(s, ps) == s
  {
    match t
    case Plain(_) =>
      NoBracketsKeepState(s, ps);
    case Wrap(o, inner) =>
      WrapInner(t, ps);
      NestedKeepsState(inner, BraceStep(s, ps[0]), ps[1..|ps| - 1]);
      WrapCloses(t, s, ps);
    case Both(l, r) =>
      var m := |Layout(l)|;
      var a, b := ps[..m], ps[m..];
      assert ps == a + b;
      CharsSlice(ps, 0, m);
      CharsSlice(ps, m, |ps|);
      BraceScanAppend(s, a, b);
      NestedKeepsState(l, s, a);
      NestedKeepsState(r, s, b);
  }

  /** Inside a bracket pair lie the positions of the inner arrangement. */
  lemma WrapInner(t: Nest, ps: seq<Position>)
    requires t.Wrap? && WellFormed(t) && Chars(ps) == Layout(t)
    ensures 2 <= |ps| && Chars(ps[1..|ps| - 1]) == Layout(t.inner)
  {
    WrapParts(t);
    CharsSlice(ps, 1, |ps| - 1);
  }

  /**
    If the inner positions leave the state with the opener pushed as it was,
    the closer pops it again and the bracket pair as a whole changes nothing.
  */
  lemma WrapCloses(t: Nest, s: BraceState, ps: seq<Position>)
    requires t.Wrap? && WellFormed(t) && Chars(ps) == Layout(t)
    requires 2 <= |ps| && BraceScan(BraceStep(s, ps[0]), ps[1..|ps| - 1]) == BraceStep(s, ps[0])
    ensures BraceScan(s, ps) == s
  {
    WrapParts(t);
    var m := |ps| - 1;
    var first, mid := ps[..1], ps[1..m];
    assert first == [ps[0]] && BraceScan(s, first) == BraceStep(s, ps[0]);
    BraceScanAppend(s, first, mid);
    assert ps[..m] == first + mid;
    PushPop(s, t.open, ps[0].1, ps[m].1);
  }

  lemma {:induction false} PositionsChars(lines: seq<string>)
    ensures Chars(Positions(lines)) == Concat(lines)
    decreases |lines|
  {
    if lines != [] {
      var init := lines[..|lines| - 1];
      PositionsChars(init);
      var a, b := Positions(init), LinePositions(lines[|lines| - 1], |lines|);
      assert Chars(a + b) == Chars(a) + Chars(b);
    }
  }

  /** Text whose brackets, across all its lines, are properly nested yields no diagnostic. */
  lemma NestedTextIsClean(code: string, t: Nest)
    requires WellFormed(t) && Layout(t) == Concat(Lines(code))
    ensures BraceErrors(code) == []
  {
    var ps := Positions(Lines(code));
    PositionsChars(Lines(code));
    NestedKeepsState(t, Start, ps);
  }

  /**
    `{(}`: the closer `}` finds `(` on top and is reported; then `(` and `{`
    are still open and are reported in that order, all on line 1.
  */
  lemma OpenParenInsideBrace()
    ensures BraceErrors("{(}") == [MissingOpening(1, '}'), MissingClosing(1, '('), MissingClosing(1, '{')]
  {
    var s := BraceScan(Start, Positions(Lines("{(}")));
    ScanOpenParenInsideBrace();
    assert Unclosed(s.stack) == [MissingClosing(1, '('), MissingClosing(1, '{')];
  }

  /** The stack and the errors at the end of the scan of `{(}`. */
  lemma ScanOpenParenInsideBrace()
    ensures BraceScan(Start, Positions(Lines("{(}"))) == BraceState([('{', 1), ('(', 1)], [MissingOpening(1, '}')])
  {
    PositionsOfOneLine("{(}");
    var ps := LinePositions("{(}", 1);
    assert ps == [('{', 1), ('(', 1), ('}', 1)];
    ScanThree(ps);
  }

  /** The three steps of the scan of `{(}`, one at a time. */
  lemma ScanThree(ps: seq<Position>)
    requires ps == [('{', 1), ('(', 1), ('}', 1)]
    ensures BraceScan(Start, ps) == BraceState([('{', 1), ('(', 1)], [MissingOpening(1, '}')])
  {
    var s1 := BraceState([ps[0]], []);
    var s2 := BraceState([ps[0], ps[1]], []);
    assert BraceStep(Start, ps[0]) == s1;
    assert BraceStep(s1, ps[1]) == s2;
    assert s2.stack[|s2.stack| - 1].0 == '(' != OpenerOf('}');
    assert BraceStep(s2, ps[2]) == BraceState(s2.stack, [MissingOpening(1, '}')]);
    ScanSnoc(Start, [], ps[0]);
    ScanSnoc(Start, [ps[0]], ps[1]);
    ScanSnoc(Start, [ps[0], ps[1]], ps[2]);
    assert [] + [ps[0]] == [ps[0]] && [ps[0]] + [ps[1]] == [ps[0], ps[1]] && [ps[0], ps[1]] + [ps[2]] == ps;
  }

  lemma ScanSnoc(s: BraceState, ps: seq<Position>, p: Position)
    ensures BraceScan(s, ps + [p]) == BraceStep(BraceScan(s, ps), p)
  {
    assert (ps + [p])[..|ps|] == ps;
  }

  lemma PositionsOfOneLine(s: string)
    requires s != [] && '\n' !in s
    ensures Positions(Lines(s)) == LinePositions(s, 1)
  {
    LinesSingle(s);
    assert [s][..0] == [];
  }
}
