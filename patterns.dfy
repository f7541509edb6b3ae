/**
  The pattern table of `analizar.py` (lines 8-17): the five token
  recognisers, tried in the fixed order PR, ID, NUM, STRING, SYMBOL, and the
  word lists used for classification and suggestions.

  Each recogniser is written out by hand for the regular expression it stands
  for, as `regex.match(line, i)` runs it: anchored at `i`, while `\b` still
  looks at the real character before `i`.
*/
module Patterns {
  import opened Wrappers
  import opened Text

  const ReservedWords: seq<string> := ["programa", "int", "read", "printf", "end"]

  /** The symbols of `valid_tokens`: every one-character symbol except `.`. */
  const SymbolTokens: seq<string> := [";", ":", ",", "=", "(", ")", "{", "}", "+", "-", "*", "/"]

  /** `valid_tokens`: the keywords followed by the symbols, in the source's order. */
  const ValidTokens: seq<string> := ReservedWords + SymbolTokens

  /** The candidate list `valid_tokens + reserved_words` given to the suggestion engine. */
  const Vocabulary: seq<string> := ValidTokens + ReservedWords

  /** The one-character symbols `; : , . = ( ) { } + - *` and slash. */
  const SymbolChars: string := ";:,.=(){}+-*/"

  /**
    `w` is one of the words `ws`. Written out by recursion, so that the
    solver unfolds it only where a proof asks for it; `OneOfIff` relates it
    to `w in ws`.
  */
  predicate OneOf(w: string, ws: seq<string>)
    decreases |ws|
  {
    ws != [] && (w == ws[0] || OneOf(w, ws[1..]))
  }

  lemma {:induction false} OneOfIff(w: string, ws: seq<string>)
    ensures OneOf(w, ws) <==> w in ws
    decreases |ws|
  {
    if ws != [] {
      OneOfIff(w, ws[1..]);
      assert w in ws <==> w == ws[0] || w in ws[1..];
    }
  }

  datatype Kind = PR | ID | NUM | STRING | SYMBOL

  /** Every symbol token is one symbol character, so none of them can start an identifier. */
  lemma SymbolTokenShape(w: string)
    requires w in SymbolTokens
    ensures |w| == 1 && w[0] in SymbolChars && !IsWordChar(w[0])
  {
  }

  /** A valid token is a keyword or a one-character symbol. */
  lemma ValidTokenShape(w: string)
    requires w in ValidTokens
    ensures w in ReservedWords || (|w| == 1 && !IsWordChar(w[0]))
  {
    if w !in ReservedWords {
      SymbolTokenShape(w);
    }
  }

  /** The order in which `patterns.items()` yields the recognisers. */
  const PatternOrder: seq<Kind> := [PR, ID, NUM, STRING, SYMBOL]

  /** Regex `\b` at position `i`: a word character on exactly one side of `i`. */
  predicate AtBoundary(line: string, i: nat)
    requires i <= |line|
  {
    |line| > 0 &&
    ((i > 0 && IsWordChar(line[i - 1])) != (i < |line| && IsWordChar(line[i])))
  }

  /** The length of the longest run of word characters starting at `i`. */
  function WordRun(line: string, i: nat): (n: nat)
    requires i <= |line|
    ensures i + n <= |line|
    ensures i + n == |line| || !IsWordChar(line[i + n])
    decreases |line| - i
  {
    if i < |line| && IsWordChar(line[i]) then 1 + WordRun(line, i + 1) else 0
  }

  /** Every character of the word run from `i` is a word character. */
  lemma {:induction false} WordRunChars(line: string, i: nat)
    requires i <= |line|
    ensures forall k :: i <= k < i + WordRun(line, i) ==> IsWordChar(line[k])
    decreases |line| - i
  {
    if i < |line| && IsWordChar(line[i]) {
      WordRunChars(line, i + 1);
    }
  }

  /** The length of the longest run of digits starting at `i`. */
  function DigitRun(line: string, i: nat): (n: nat)
    requires i <= |line|
    ensures i + n <= |line|
    ensures forall k :: i <= k < i + n ==> IsDigit(line[k])
    ensures i + n == |line| || !IsDigit(line[i + n])
    decreases |line| - i
  {
    if i < |line| && IsDigit(line[i]) then 1 + DigitRun(line, i + 1) else 0
  }

  /** The length of the longest run of whitespace starting at `i`. */
  function SpaceRun(line: string, i: nat): (n: nat)
    requires i <= |line|
    ensures i + n <= |line|
    ensures i + n == |line| || !IsSpace(line[i + n])
    decreases |line| - i
  {
    if i < |line| && IsSpace(line[i]) then 1 + SpaceRun(line, i + 1) else 0
  }

  /** Every character of the whitespace run from `i` is whitespace. */
  lemma {:induction false} SpaceRunChars(line: string, i: nat)
    requires i <= |line|
    ensures forall k :: i <= k < i + SpaceRun(line, i) ==> IsSpace(line[k])
    decreases |line| - i
  {
    if i < |line| && IsSpace(line[i]) {
      SpaceRunChars(line, i + 1);
    }
  }

  /** Keyword `k` stands at `i` between two word boundaries. */
  predicate KeywordAt(line: string, i: nat, k: string)
    requires i <= |line|
  {
    OccursAt(line, k, i) && AtBoundary(line, i) && AtBoundary(line, i + |k|)
  }

  /**
    The alternation `\b(k0|k1|...)\b`: the first alternative, in list order,
    that stands at `i` with a boundary on both sides; the result is its length.
  */
  function MatchKeyword(line: string, i: nat, ks: seq<string>): (r: Option<nat>)
    requires i <= |line|
    requires forall k :: 0 <= k < |ks| ==> ks[k] != []
    ensures r.Some? ==> 0 < r.value && i + r.value <= |line|
    ensures r.Some? ==> exists k :: 0 <= k < |ks| && KeywordAt(line, i, ks[k]) && r.value == |ks[k]|
    ensures r.None? <==> forall k :: 0 <= k < |ks| ==> !KeywordAt(line, i, ks[k])
    decreases |ks|
  {
    if ks == [] then None
    else if KeywordAt(line, i, ks[0]) then Some(|ks[0]|)
    else
      assert forall k :: 1 <= k < |ks| ==> ks[k] == ks[1..][k - 1];
      MatchKeyword(line, i, ks[1..])
  }

  /**
    The recogniser for `kind` anchored at `i`, giving the length of the match,
    which is never empty and never runs past the line.
    ID and NUM use greedy runs; a shorter run could never satisfy a trailing
    `\b`, because it would stop between two word characters (see
    `ShorterRunHasNoBoundary`), so backtracking cannot find another match.
  */
  function Recognise(kind: Kind, line: string, i: nat): (r: Option<nat>)
    requires i < |line|
    ensures r.Some? ==> 0 < r.value && i + r.value <= |line|
  {
    match kind
    case PR =>      // \b(programa|int|read|printf|end)\b
      MatchKeyword(line, i, ReservedWords)
    case ID =>      // \b[a-zA-Z_][a-zA-Z0-9_]*\b
      if AtBoundary(line, i) && IsIdStart(line[i]) then Some(WordRun(line, i)) else None
    case NUM =>     // \b\d+\b
      var n := DigitRun(line, i);
      if AtBoundary(line, i) && n > 0 && AtBoundary(line, i + n) then Some(n) else None
    case STRING =>  // \"[^\"]*\"
      if line[i] == '"' then
        match FindChar(line, '"', i + 1)
        case Some(j) => Some(j + 1 - i)
        case None => None
      else None
    case SYMBOL =>  // [;:,.=(){}+\-*/]
      if line[i] in SymbolChars then Some(1) else None
  }

  /**
    No run of word characters stops at a word boundary except at its end: the
    reason the greedy runs above are the only matches the regexes can find.
  */
  lemma ShorterRunHasNoBoundary(line: string, i: nat, m: nat)
    requires i < |line| && 0 < m < WordRun(line, i)
    ensures !AtBoundary(line, i + m)
  {
    WordRunChars(line, i);
  }

  /** The index in `PatternOrder`, from `from` on, of the first recogniser that matches at `i`. */
  function FirstPattern(line: string, i: nat, from: nat): (r: Option<nat>)
    requires i < |line| && from <= |PatternOrder|
    ensures r.Some? ==> from <= r.value < |PatternOrder| && Recognise(PatternOrder[r.value], line, i).Some?
    ensures r.Some? ==> forall j :: from <= j < r.value ==> Recognise(PatternOrder[j], line, i).None?
    ensures r.None? ==> forall j :: from <= j < |PatternOrder| ==> Recognise(PatternOrder[j], line, i).None?
    decreases |PatternOrder| - from
  {
    if from == |PatternOrder| then None
    else if Recognise(PatternOrder[from], line, i).Some? then Some(from)
    else FirstPattern(line, i, from + 1)
  }

  /**
    The keywords differ in their first or third character, so no two different
    keywords can stand at the same position.
  */
  lemma KeywordsDistinguished(a: string, b: string)
    requires a in ReservedWords && b in ReservedWords
    ensures |a| >= 3 && |b| >= 3
    ensures a[0] == b[0] && a[2] == b[2] ==> a == b
  {
  }

  /**
    First-match priority: where a keyword stands between two word boundaries,
    the PR recogniser, tried first, wins and consumes exactly that keyword.
  */
  lemma KeywordIsReservedWord(line: string, i: nat, w: string)
    requires i < |line| && w in ReservedWords && KeywordAt(line, i, w)
    ensures FirstPattern(line, i, 0) == Some(0)
    ensures Recognise(PR, line, i) == Some(|w|)
  {
    var r := MatchKeyword(line, i, ReservedWords);
    var k :| 0 <= k < |ReservedWords| && KeywordAt(line, i, ReservedWords[k]) && r.value == |ReservedWords[k]|;
    var v := ReservedWords[k];
    KeywordsDistinguished(v, w);
    assert v[0] == line[i] == w[0];
    assert v[2] == line[i + 2] == w[2];
  }

  /** ID and NUM only start where the character before is not a word character. */
  lemma LeadingBoundary(kind: Kind, line: string, i: nat)
    requires i < |line| && (kind == ID || kind == NUM) && Recognise(kind, line, i).Some?
    ensures i == 0 || !IsWordChar(line[i - 1])
  {
  }

  /**
    What a match of each recogniser looks like: a keyword for PR, an
    identifier for ID, digits for NUM, a text in double quotes with no quote
    inside for STRING and one symbol character for SYMBOL.
  */
  predicate LexemeShape(kind: Kind, w: string) {
    match kind
    case PR => OneOf(w, ReservedWords)
    case ID => IsIdentifierName(w)
    case NUM => w != [] && forall k :: 0 <= k < |w| ==> IsDigit(w[k])
    case STRING => 2 <= |w| && w[0] == '"' && w[|w| - 1] == '"' && forall k :: 0 < k < |w| - 1 ==> w[k] != '"'
    case SYMBOL => |w| == 1 && w[0] in SymbolChars
  }

  lemma KeywordLexeme(kind: Kind, line: string, i: nat)
    requires kind == PR && i < |line| && Recognise(kind, line, i).Some?
    ensures LexemeShape(kind, line[i..i + Recognise(kind, line, i).value])
  {
    var n := Recognise(kind, line, i).value;
    var k :| 0 <= k < |ReservedWords| && KeywordAt(line, i, ReservedWords[k]) && n == |ReservedWords[k]|;
    assert line[i..i + n] == ReservedWords[k];
    OneOfIff(line[i..i + n], ReservedWords);
  }

  lemma IdLexeme(kind: Kind, line: string, i: nat)
    requires kind == ID && i < |line| && Recognise(kind, line, i).Some?
    ensures LexemeShape(kind, line[i..i + Recognise(kind, line, i).value])
  {
    var w := line[i..i + WordRun(line, i)];
    WordRunChars(line, i);
    forall m | 1 <= m < |w| ensures IsWordChar(w[m]) {
      assert w[m] == line[i + m];
    }
  }

  lemma NumLexeme(kind: Kind, line: string, i: nat)
    requires kind == NUM && i < |line| && Recognise(kind, line, i).Some?
    ensures LexemeShape(kind, line[i..i + Recognise(kind, line, i).value])
  {
    var w := line[i..i + DigitRun(line, i)];
    forall m | 0 <= m < |w| ensures IsDigit(w[m]) {
      assert w[m] == line[i + m];
    }
  }

  lemma StringLexeme(kind: Kind, line: string, i: nat)
    requires kind == STRING && i < |line| && Recognise(kind, line, i).Some?
    ensures LexemeShape(kind, line[i..i + Recognise(kind, line, i).value])
  {
    var j := FindChar(line, '"', i + 1).value;
    var w := line[i..j + 1];
    forall m | 0 < m < |w| - 1 ensures w[m] != '"' {
      assert w[m] == line[i + m];
    }
  }

  /** Every match has the shape of its recogniser. */
  lemma RecognisedLexeme(kind: Kind, line: string, i: nat)
    requires i < |line| && Recognise(kind, line, i).Some?
    ensures LexemeShape(kind, line[i..i + Recognise(kind, line, i).value])
  {
    match kind
    case PR => KeywordLexeme(kind, line, i);
    case ID => IdLexeme(kind, line, i);
    case NUM => NumLexeme(kind, line, i);
    case STRING => StringLexeme(kind, line, i);
    case SYMBOL => SymbolLexeme(kind, line, i);
  }

  lemma SymbolLexeme(kind: Kind, line: string, i: nat)
    requires kind == SYMBOL && i < |line| && Recognise(kind, line, i).Some?
    ensures LexemeShape(kind, line[i..i + Recognise(kind, line, i).value])
  {
    assert line[i..i + 1] == [line[i]];
  }

  /** Only keywords and identifiers can begin with a letter or an underscore. */
  lemma NotIdStart(kind: Kind, w: string)
    requires kind != PR && kind != ID && LexemeShape(kind, w)
    ensures w != [] && !IsIdStart(w[0])
  {
  }

  /** An ID match is never a keyword, since PR is tried first. */
  lemma IdLexemeNotKeyword(line: string, i: nat)
    requires i < |line| && FirstPattern(line, i, 0) == Some(1)
    ensures !OneOf(line[i..i + WordRun(line, i)], ReservedWords)
  {
    var w := line[i..i + WordRun(line, i)];
    OneOfIff(w, ReservedWords);
    if w in ReservedWords {
      IdWonAt(line, i);
      RunIsKeywordAt(line, i);
      KeywordIsReservedWord(line, i, w);
    }
  }

  /** The ID recogniser wins at `i`: a name starts there, at a boundary. */
  lemma IdWonAt(line: string, i: nat)
    requires i < |line| && FirstPattern(line, i, 0) == Some(1)
    ensures AtBoundary(line, i) && IsIdStart(line[i])
  {
    assert PatternOrder[1] == ID;
  }

  /** A name starting at a boundary stands there as a keyword would: with a boundary on both sides. */
  lemma RunIsKeywordAt(line: string, i: nat)
    requires i < |line| && AtBoundary(line, i) && IsIdStart(line[i])
    ensures KeywordAt(line, i, line[i..i + WordRun(line, i)])
  {
    WordRunChars(line, i);
  }

  /** An ID match is an identifier, so it is neither a keyword nor a symbol token. */
  lemma IdLexemeNotValidToken(line: string, i: nat)
    requires i < |line| && FirstPattern(line, i, 0) == Some(1)
    ensures !OneOf(line[i..i + WordRun(line, i)], ValidTokens)
  {
    var w := line[i..i + WordRun(line, i)];
    IdLexemeNotKeyword(line, i);
    IdLexeme(ID, line, i);
    OneOfIff(w, ReservedWords);
    OneOfIff(w, ValidTokens);
    if w in ValidTokens {
      ValidTokenShape(w);
    }
  }

  /**
    What a match of `kind` with lexeme `w` looks like when its recogniser is
    the first to match: the shape of `LexemeShape`, and for ID a word that
    is no keyword and no other valid token.
  */
  predicate Shaped(kind: Kind, w: string) {
    LexemeShape(kind, w) && (kind == ID ==> !OneOf(w, ValidTokens) && !OneOf(w, ReservedWords))
  }

  /** The first recogniser to match has a match of its own shape. */
  lemma MatchShaped(line: string, i: nat, j: nat)
    requires i < |line| && FirstPattern(line, i, 0) == Some(j)
    ensures Shaped(PatternOrder[j], line[i..i + Recognise(PatternOrder[j], line, i).value])
  {
    if j == 1 {
      IdMatchShaped(line, i);
    } else {
      OnlyIdAtOne(j);
      RecognisedLexeme(PatternOrder[j], line, i);
    }
  }

  /** ID is the second recogniser and no other. */
  lemma OnlyIdAtOne(j: nat)
    requires j < |PatternOrder| && j != 1
    ensures PatternOrder[j] != ID
  {
    assert PatternOrder[0] == PR && PatternOrder[2] == NUM && PatternOrder[3] == STRING && PatternOrder[4] == SYMBOL;
  }

  /** `MatchShaped` for an ID match: a word that is neither a keyword nor a symbol token. */
  lemma IdMatchShaped(line: string, i: nat)
    requires i < |line| && FirstPattern(line, i, 0) == Some(1)
    ensures Shaped(ID, line[i..i + Recognise(ID, line, i).value])
  {
    RecognisedLexeme(ID, line, i);
    IdLexemeNotKeyword(line, i);
    IdLexemeNotValidToken(line, i);
  }

  /** A recogniser that matched at some position, and the text it matched. */
  datatype Hit = Hit(kind: Kind, lexeme: string)

  /** `hit`, if any, is a non-empty match that stands in the line at `i`. */
  predicate Fits(line: string, i: nat, hit: Option<Hit>) {
    i < |line| &&
    (hit.Some? ==>
      var w := hit.value.lexeme;
      0 < |w| && i + |w| <= |line| && line[i..i + |w|] == w)
  }

  /** `hit` fits, and has the shape of its kind. */
  predicate HitOk(line: string, i: nat, hit: Option<Hit>) {
    Fits(line, i, hit) && (hit.Some? ==> Shaped(hit.value.kind, hit.value.lexeme))
  }

  /**
    The `for token_type, pattern in patterns.items()` loop at `i`: the first
    recogniser in `PatternOrder` that matches, with the text it matches.
  */
  function FirstMatch(line: string, i: nat): (r: Option<Hit>)
    requires i < |line|
    ensures HitOk(line, i, r)
    ensures r.Some? <==> FirstPattern(line, i, 0).Some?
    ensures r.Some? ==>
      r.value.kind == PatternOrder[FirstPattern(line, i, 0).value] &&
      Recognise(r.value.kind, line, i) == Some(|r.value.lexeme|)
  {
    match FirstPattern(line, i, 0)
    case None => None
    case Some(j) =>
      MatchShaped(line, i, j);
      Some(Hit(PatternOrder[j], line[i..i + Recognise(PatternOrder[j], line, i).value]))
  }

  /** Once the recognisers before `j` have failed, the first match is that of the first recogniser from `j` on. */
  lemma FirstMatchFrom(line: string, i: nat, j: nat)
    requires i < |line| && j < |PatternOrder| && FirstPattern(line, i, j) == FirstPattern(line, i, 0)
    requires Recognise(PatternOrder[j], line, i).Some?
    ensures i + Recognise(PatternOrder[j], line, i).value <= |line|
    ensures FirstMatch(line, i) == Some(Hit(PatternOrder[j], line[i..i + Recognise(PatternOrder[j], line, i).value]))
  {
    MatchShaped(line, i, j);
  }

  /** A recogniser that fails passes the search on to the next one. */
  lemma FirstPatternSkip(line: string, i: nat, j: nat)
    requires i < |line| && j < |PatternOrder| && Recognise(PatternOrder[j], line, i).None?
    ensures FirstPattern(line, i, j + 1) == FirstPattern(line, i, j)
  {
  }

  /** When every recogniser has failed, there is no match. */
  lemma NoMatchAfterAll(line: string, i: nat)
    requires i < |line| && FirstPattern(line, i, |PatternOrder|) == FirstPattern(line, i, 0)
    ensures FirstMatch(line, i) == None
  {
  }
}
