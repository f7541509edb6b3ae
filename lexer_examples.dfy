/**
  What word boundaries do to the lexer: no recogniser can start in the middle
  of a word, so a word that no recogniser takes as a whole falls apart into
  unknown characters, while a non-word character between two words separates
  them. The two texts `12abc` and `a.b` are worked out in full.
*/
module LexerExamples {
  import opened Wrappers
  import opened Text
  import opened Diagnostics
  import opened Patterns
  import opened Classify
  import opened Lexer

  /**
    Between two word characters there is no `\b`, so every recogniser that
    could start there (PR, ID and NUM all begin with `\b`) fails, and STRING
    and SYMBOL fail because a word character is neither a quote nor a symbol.
  */
  lemma InsideWordNoMatch(line: string, i: nat)
    requires 0 < i < |line| && IsWordChar(line[i - 1]) && IsWordChar(line[i])
    ensures FirstPattern(line, i, 0).None?
  {
    assert !AtBoundary(line, i);
    assert forall k :: 0 <= k < |ReservedWords| ==> !KeywordAt(line, i, ReservedWords[k]);
    assert Recognise(PR, line, i).None?;
  }

  /** The unknown tokens of the characters of `s`, on line `n`. */
  function Unknowns(s: string, n: nat): (ts: seq<Token>)
    ensures |ts| == |s|
  {
    if s == [] then [] else [UnknownToken(n, s[0])] + Unknowns(s[1..], n)
  }

  /** The invalid-token errors of the characters of `s`, on line `n`. */
  function Invalids(s: string, n: nat): (ds: seq<Diagnostic>)
    ensures |ds| == |s|
  {
    if s == [] then [] else [InvalidToken(n, s[0])] + Invalids(s[1..], n)
  }

  /** The scan of a line from `i` goes on from wherever the step at `i` leaves it. */
  lemma ScanFromStep(st: LexState, line: string, n: nat, i: nat, suggest: Suggester)
    requires i < |line|
    ensures var next := Step(st, line, n, i, suggest);
      ScanFrom(st, line, n, i, suggest) == ScanFrom(next.0, line, n, next.1, suggest)
  {
  }
  /** At a non-space character where no pattern matches, the step falls back. */
  lemma StepFallsBack(st: LexState, line: string, n: nat, i: nat, suggest: Suggester)
    requires i < |line| && !IsSpace(line[i]) && FirstPattern(line, i, 0).None?
    ensures Step(st, line, n, i, suggest).0 == Fallback(st, n, line[i])
    ensures Step(st, line, n, i, suggest).1 == i + 1
  {
    UnknownFallback(st, line, n, i, suggest);
  }
  /** Unfolding the unknowns and errors of a suffix by one character. */
  lemma UnknownsCons(line: string, i: nat, n: nat)
    requires i < |line|
    ensures Unknowns(line[i..], n) == [UnknownToken(n, line[i])] + Unknowns(line[i + 1..], n)
    ensures Invalids(line[i..], n) == [InvalidToken(n, line[i])] + Invalids(line[i + 1..], n)
  {
    assert line[i..][0] == line[i] && line[i..][1..] == line[i + 1..];
  }
  /**
    A stretch of non-space characters at none of which a recogniser matches
    is lexed one character at a time: one unknown token and one invalid-token
    error per character, in order, and nothing else changes.
  */
  lemma {:induction false} UnknownStretch(st: LexState, line: string, n: nat, i: nat, suggest: Suggester)
    requires i <= |line|
    requires forall k :: i <= k < |line| ==> !IsSpace(line[k]) && FirstPattern(line, k, 0).None?
    ensures var r := ScanFrom(st, line, n, i, suggest);
      r.registry == st.registry && r.counts == st.counts &&
      r.tokens == st.tokens + Unknowns(line[i..], n) && r.errors == st.errors + Invalids(line[i..], n)
    decreases |line| - i
  {
    if i < |line| {
      var st' := Fallback(st, n, line[i]);
      ScanFromStep(st, line, n, i, suggest);
      StepFallsBack(st, line, n, i, suggest);
      UnknownStretch(st', line, n, i + 1, suggest);
      UnknownsCons(line, i, n);
      Assoc(st.tokens, [UnknownToken(n, line[i])], Unknowns(line[i + 1..], n));
      Assoc(st.errors, [InvalidToken(n, line[i])], Invalids(line[i + 1..], n));
    } else {
      assert line[i..] == [];
    }
  }

  /**
    `12abc`: NUM cannot take `12`, because `2` and `a` are both word
    characters and so there is no `\b` after it; nothing else starts with a
    digit, and no recogniser starts inside the word. All five characters come
    out as unknown tokens, each with its own invalid-token error, and no
    counter or registered name changes.
  */
  lemma DigitsGluedToLetters(st: LexState, s: string, n: nat, suggest: Suggester)
    requires s == "12abc"
    ensures var r := ScanFrom(st, s, n, 0, suggest);
      r.registry == st.registry && r.counts == st.counts &&
      r.tokens == st.tokens + Unknowns(s, n) && r.errors == st.errors + Invalids(s, n)
  {
    GluedWord(s);
    GluedNumber(s);
    WordWithoutMatch(s);
    UnknownStretch(st, s, n, 0, suggest);
    assert s[0..] == s;
  }

  /**
    A word (every character a word character) at whose start no recogniser
    matches has no match anywhere: past its first character there is no
    leading `\b`.
  */
  lemma WordWithoutMatch(line: string)
    requires 0 < |line| && (forall k :: 0 <= k < |line| ==> IsWordChar(line[k]))
    requires FirstPattern(line, 0, 0).None?
    ensures forall k :: 0 <= k < |line| ==> !IsSpace(line[k]) && FirstPattern(line, k, 0).None?
  {
    forall k | 0 <= k < |line|
      ensures !IsSpace(line[k]) && FirstPattern(line, k, 0).None?
    {
      WordCharIsNoSpace(line[k]);
      if k > 0 {
        InsideWordNoMatch(line, k);
      }
    }
  }

  /** A word character is not whitespace. */
  lemma WordCharIsNoSpace(c: char)
    requires IsWordChar(c)
    ensures !IsSpace(c)
  {
  }

  /** `12abc` is one word. */
  lemma GluedWord(s: string)
    requires s == "12abc"
    ensures forall k :: 0 <= k < |s| ==> IsWordChar(s[k])
  {
    assert IsWordChar(s[0]) && IsWordChar(s[1]) && IsWordChar(s[2]) && IsWordChar(s[3]) && IsWordChar(s[4]);
  }

  /** At the start of `12abc`, NUM finds no `\b` after `12`, and no keyword starts with `1`. */
  lemma GluedNumber(s: string)
    requires s == "12abc"
    ensures FirstPattern(s, 0, 0).None?
  {
    assert DigitRun(s, 1) == 1;
    assert DigitRun(s, 0) == 2;
    assert !AtBoundary(s, 2);
    NoKeywordAt(s, 0);
  }

  /** No keyword starts with a character other than `p`, `i`, `r` and `e`. */
  lemma NoKeywordAt(line: string, i: nat)
    requires i < |line| && line[i] != 'p' && line[i] != 'i' && line[i] != 'r' && line[i] != 'e'
    ensures Recognise(PR, line, i).None?
  {
    forall k | 0 <= k < |ReservedWords|
      ensures !KeywordAt(line, i, ReservedWords[k])
    {
      assert ReservedWords[k][0] != line[i];
    }
  }

  /** At a word start behind a non-word character, a word that is not a keyword is an identifier. */
  lemma IdentifierAt(line: string, i: nat, w: string)
    requires i < |line| && (i == 0 || !IsWordChar(line[i - 1]))
    requires IsIdStart(line[i]) && w == line[i..i + WordRun(line, i)]
    requires Recognise(PR, line, i).None?
    ensures FirstMatch(line, i) == Some(Hit(ID, w))
  {
    assert AtBoundary(line, i);
    assert FirstPattern(line, i, 0) == Some(1);
  }

  /** A symbol character that no keyword or word can start with is a SYMBOL of length one. */
  lemma SymbolAt(line: string, i: nat)
    requires i < |line| && line[i] in SymbolChars
    ensures FirstMatch(line, i) == Some(Hit(SYMBOL, [line[i]]))
  {
    assert !IsWordChar(line[i]) && !IsDigit(line[i]) && line[i] != '"';
    NoKeywordAt(line, i);
    assert FirstPattern(line, i, 0) == Some(4);
    assert line[i..i + 1] == [line[i]];
  }

  /** A step that takes a match accepts it and jumps past it. */
  lemma StepTakes(st: LexState, line: string, n: nat, i: nat, w: string, kind: Kind, suggest: Suggester)
    requires i < |line| && !IsSpace(line[i]) && FirstMatch(line, i) == Some(Hit(kind, w))
    ensures Step(st, line, n, i, suggest).0 == Accept(st, n, w, kind, suggest)
    ensures Step(st, line, n, i, suggest).1 == i + |w|
  {
    AdvanceAccepts(st, line, n, i, Some(Hit(kind, w)), suggest);
  }

  /**
    `a.b`: the dot is a non-word character, so each letter has a boundary on
    both sides. The line is the identifier `a`, the symbol `.` and the
    identifier `b`, accepted in that order.
  */
  lemma DotSeparatesWords(st: LexState, s: string, n: nat, suggest: Suggester)
    requires s == "a.b"
    ensures ScanFrom(st, s, n, 0, suggest) ==
      Accept(Accept(Accept(st, n, "a", ID, suggest), n, ".", SYMBOL, suggest), n, "b", ID, suggest)
  {
    var st1 := Accept(st, n, "a", ID, suggest);
    var st2 := Accept(st1, n, ".", SYMBOL, suggest);
    DotFirst(st, s, n, suggest);
    DotSecond(st1, s, n, suggest);
    DotThird(st2, s, n, suggest);
    ThreeSteps(st, st1, st2, Accept(st2, n, "b", ID, suggest), s, n, suggest);
  }

  /** At 0 in `a.b` the step takes the identifier `a`. */
  lemma DotFirst(st: LexState, s: string, n: nat, suggest: Suggester)
    requires s == "a.b"
    ensures Step(st, s, n, 0, suggest).0 == Accept(st, n, "a", ID, suggest)
    ensures Step(st, s, n, 0, suggest).1 == 1
  {
    DotMatchesA(s);
    StepTakes(st, s, n, 0, "a", ID, suggest);
  }

  /** At 1 in `a.b` the step takes the symbol `.`. */
  lemma DotSecond(st: LexState, s: string, n: nat, suggest: Suggester)
    requires s == "a.b"
    ensures Step(st, s, n, 1, suggest).0 == Accept(st, n, ".", SYMBOL, suggest)
    ensures Step(st, s, n, 1, suggest).1 == 2
  {
    DotMatchesDot(s);
    StepTakes(st, s, n, 1, ".", SYMBOL, suggest);
  }

  /** At 2 in `a.b` the step takes the identifier `b`. */
  lemma DotThird(st: LexState, s: string, n: nat, suggest: Suggester)
    requires s == "a.b"
    ensures Step(st, s, n, 2, suggest).0 == Accept(st, n, "b", ID, suggest)
    ensures Step(st, s, n, 2, suggest).1 == 3
  {
    DotMatchesB(s);
    StepTakes(st, s, n, 2, "b", ID, suggest);
  }

  /** The pattern loop finds the identifier `a` at the start of `a.b`. */
  lemma DotMatchesA(s: string)
    requires s == "a.b"
    ensures FirstMatch(s, 0) == Some(Hit(ID, "a"))
  {
    assert WordRun(s, 1) == 0 && WordRun(s, 0) == 1;
    NoKeywordAt(s, 0);
    IdentifierAt(s, 0, "a");
  }

  /** The pattern loop finds the symbol `.` in the middle of `a.b`. */
  lemma DotMatchesDot(s: string)
    requires s == "a.b"
    ensures FirstMatch(s, 1) == Some(Hit(SYMBOL, "."))
  {
    SymbolAt(s, 1);
  }

  /** The pattern loop finds the identifier `b` at the end of `a.b`. */
  lemma DotMatchesB(s: string)
    requires s == "a.b"
    ensures FirstMatch(s, 2) == Some(Hit(ID, "b"))
  {
    assert WordRun(s, 3) == 0 && WordRun(s, 2) == 1;
    NoKeywordAt(s, 2);
    IdentifierAt(s, 2, "b");
  }

  /** A line of three characters that the scan takes one character per step. */
  lemma ThreeSteps(st: LexState, st1: LexState, st2: LexState, st3: LexState, line: string, n: nat, suggest: Suggester)
    requires |line| == 3
    requires Step(st, line, n, 0, suggest).0 == st1 && Step(st, line, n, 0, suggest).1 == 1
    requires Step(st1, line, n, 1, suggest).0 == st2 && Step(st1, line, n, 1, suggest).1 == 2
    requires Step(st2, line, n, 2, suggest).0 == st3 && Step(st2, line, n, 2, suggest).1 == 3
    ensures ScanFrom(st, line, n, 0, suggest) == st3
  {
    ScanFromStep(st, line, n, 0, suggest);
    ScanFromStep(st1, line, n, 1, suggest);
    ScanFromStep(st2, line, n, 2, suggest);
  }

}
