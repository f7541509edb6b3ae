/**
  The scanning loop of `lex_analyze` (analizar.py:147-209) as functions on
  values: one step at a position, the scan of a line, the scan of all lines.
  `Analyzer.LexAnalyze` is proved to compute exactly these; the lemmas here
  state what the scan guarantees.
*/
module Lexer {
  import opened Wrappers
  import opened Text
  import opened Diagnostics
  import opened Patterns
  import opened Classify

  /**
    A token record. The six flags are the columns that `analizar.py` fills
    with 'X' (true) or '' (false).
  */
  datatype Token = Token(
    line: nat, lexeme: string,
    reservedWord: bool, identifier: bool, variable: bool, number: bool, str: bool, symbol: bool,
    tipo: Tipo)

  /**
    The six counters of `token_count`: 'Palabra Reservada', 'Identificador',
    'Variable', 'Número', 'Cadena' and 'Símbolo'.
  */
  datatype Counts = Counts(reserved: nat, identifier: nat, variable: nat, number: nat, str: nat, symbol: nat)

  const NoCounts := Counts(0, 0, 0, 0, 0, 0)

  function Plus(a: Counts, b: Counts): Counts {
    Counts(a.reserved + b.reserved, a.identifier + b.identifier, a.variable + b.variable,
      a.number + b.number, a.str + b.str, a.symbol + b.symbol)
  }

  function Total(c: Counts): nat {
    c.reserved + c.identifier + c.variable + c.number + c.str + c.symbol
  }

  /** The counter update of analizar.py:165-178 for a match of `kind`. */
  function Bump(c: Counts, kind: Kind, known: bool): Counts {
    match kind
    case PR => c.(reserved := c.reserved + 1)
    case ID => if known then c.(variable := c.variable + 1) else c.(identifier := c.identifier + 1)
    case NUM => c.(number := c.number + 1)
    case STRING => c.(str := c.str + 1)
    case SYMBOL => c.(symbol := c.symbol + 1)
  }

  function Bit(b: bool): nat { if b then 1 else 0 }

  /** One for each flag the token has set. */
  function Flags(t: Token): Counts {
    Counts(Bit(t.reservedWord), Bit(t.identifier), Bit(t.variable), Bit(t.number), Bit(t.str), Bit(t.symbol))
  }

  /** The number of tokens with each flag set. */
  function Tally(ts: seq<Token>): Counts {
    if ts == [] then NoCounts else Plus(Tally(ts[..|ts| - 1]), Flags(ts[|ts| - 1]))
  }

  lemma PlusZero(c: Counts)
    ensures Plus(c, NoCounts) == c
  {
  }

  lemma PlusAssoc(a: Counts, b: Counts, c: Counts)
    ensures Plus(Plus(a, b), c) == Plus(a, Plus(b, c))
  {
  }

  lemma {:induction false} TallyAppend(a: seq<Token>, b: seq<Token>)
    ensures Tally(a + b) == Plus(Tally(a), Tally(b))
    decreases |b|
  {
    if b == [] {
      assert a + b == a;
      PlusZero(Tally(a));
    } else {
      var b', x := b[..|b| - 1], b[|b| - 1];
      assert (a + b)[..|a + b| - 1] == a + b';
      assert (a + b)[|a + b| - 1] == x;
      TallyAppend(a, b');
      PlusAssoc(Tally(a), Tally(b'), Flags(x));
    }
  }

  /** Everything the loop of `lex_analyze` carries from one position to the next. */
  datatype LexState = LexState(registry: seq<string>, counts: Counts, tokens: seq<Token>, errors: seq<Diagnostic>)

  /** The `'Desconocido'` token for a character no pattern matches. */
  function UnknownToken(n: nat, c: char): Token {
    Token(n, [c], false, false, false, false, false, false, Unknown)
  }

  /** analizar.py:195-209: one unknown token and one "Token inválido" error; nothing else changes. */
  function Fallback(st: LexState, n: nat, c: char): LexState {
    st.(tokens := st.tokens + [UnknownToken(n, c)], errors := st.errors + [InvalidToken(n, c)])
  }

  function ErrorsOf(e: Option<Expectation>, n: nat): seq<Diagnostic> {
    match e
    case Some(x) => [Expected(n, x.expected, x.found)]
    case None => []
  }

  /** The record analizar.py:182-192 appends, `known` being membership in the registry afterwards. */
  function TokenFor(n: nat, w: string, kind: Kind, tipo: Tipo, known: bool): Token {
    Token(n, w, kind == PR, kind == ID && !known, known, kind == NUM, kind == STRING, kind == SYMBOL, tipo)
  }

  /** analizar.py:161-192: classify the match, count it, report its error, append its token. */
  function Accept(st: LexState, n: nat, w: string, kind: Kind, suggest: Suggester): LexState {
    var c := Categorize(st.registry, w, kind, suggest);
    var known := w in c.registry;
    LexState(c.registry, Bump(st.counts, kind, known),
      st.tokens + [TokenFor(n, w, kind, c.tipo, known)], st.errors + ErrorsOf(c.error, n))
  }

  /**
    One iteration of the `while index < len(line)` loop: skip a whitespace
    character, or else run the pattern loop and act on what it found. The new
    index is always further along the line.
  */
  function Step(st: LexState, line: string, n: nat, i: nat, suggest: Suggester): (r: (LexState, nat))
    requires i < |line|
    ensures i < r.1 <= |line|
    ensures IsSpace(line[i]) ==> r.0 == st && r.1 == i + 1
  {
    if IsSpace(line[i]) then (st, i + 1) else Advance(st, line, n, i, FirstMatch(line, i), suggest)
  }

  /**
    What the iteration does with the result of the pattern loop: accept the
    match and move past it, or fall back to an unknown character.
  */
  function Advance(st: LexState, line: string, n: nat, i: nat, hit: Option<Hit>, suggest: Suggester): (r: (LexState, nat))
    requires Fits(line, i, hit)
    ensures i < r.1 <= |line|
  {
    if hit.None? then (Fallback(st, n, line[i]), i + 1)
    else (Accept(st, n, hit.value.lexeme, hit.value.kind, suggest), i + |hit.value.lexeme|)
  }

  /** `Advance` on a match is `Accept` followed by a jump past the lexeme. */
  lemma AdvanceAccepts(st: LexState, line: string, n: nat, i: nat, hit: Option<Hit>, suggest: Suggester)
    requires Fits(line, i, hit) && hit.Some?
    ensures Advance(st, line, n, i, hit, suggest) ==
      (Accept(st, n, hit.value.lexeme, hit.value.kind, suggest), i + |hit.value.lexeme|)
  {
  }

  /** `Advance` without a match is `Fallback` followed by a step of one. */
  lemma AdvanceFallsBack(st: LexState, line: string, n: nat, i: nat, suggest: Suggester)
    requires i < |line|
    ensures Advance(st, line, n, i, None, suggest) == (Fallback(st, n, line[i]), i + 1)
  {
  }

  /** The rest of the scan of line `n` from position `i`. */
  function ScanFrom(st: LexState, line: string, n: nat, i: nat, suggest: Suggester): LexState
    requires i <= |line|
    decreases |line| - i
  {
    if i == |line| then st
    else
      var next := Step(st, line, n, i, suggest);
      ScanFrom(next.0, line, n, next.1, suggest)
  }

  /** The scan of all lines in order, numbered from 1. */
  function ScanLines(st: LexState, lines: seq<string>, suggest: Suggester): LexState {
    if lines == [] then st
    else ScanFrom(ScanLines(st, lines[..|lines| - 1], suggest), lines[|lines| - 1], |lines|, 0, suggest)
  }

  /** The lexer over a whole text. */
  function Lex(st: LexState, code: string, suggest: Suggester): LexState {
    ScanLines(st, Lines(code), suggest)
  }

  // ---------------------------------------------------------------------------
  // Single steps
  // ---------------------------------------------------------------------------

  /**
    The unknown fallback: at a non-space character where no pattern matches,
    the step emits exactly that character as a `'Desconocido'` token with no
    flag set, reports exactly one invalid-token error, leaves counters and
    registry alone and moves on by one.
  */
  lemma UnknownFallback(st: LexState, line: string, n: nat, i: nat, suggest: Suggester)
    requires i < |line| && !IsSpace(line[i]) && FirstPattern(line, i, 0).None?
    ensures var (st', i') := Step(st, line, n, i, suggest);
      i' == i + 1 && st'.registry == st.registry && st'.counts == st.counts &&
      st'.tokens == st.tokens + [Token(n, [line[i]], false, false, false, false, false, false, Unknown)] &&
      st'.errors == st.errors + [InvalidToken(n, line[i])]
  {
  }

  /**
    Counting an accepted match: exactly one of the six counters goes up, by
    one, and it is the one whose flag the new token carries; the token has
    exactly one flag set; the registry keeps its invariant and only grows.
  */
  lemma {:induction false} AcceptCounts(st: LexState, n: nat, w: string, kind: Kind, suggest: Suggester)
    requires RegistryInvariant(st.registry, suggest) && Shaped(kind, w)
    ensures var st' := Accept(st, n, w, kind, suggest);
      |st'.tokens| == |st.tokens| + 1 &&
      var t := st'.tokens[|st.tokens|];
      RegistryInvariant(st'.registry, suggest) && st.registry <= st'.registry &&
      Total(Flags(t)) == 1 && t.tipo != Unknown &&
      st'.counts == Plus(st.counts, Flags(t))
  {
    CategorizeKeepsInvariant(st.registry, w, kind, suggest);
    CategorizeRegisters(st.registry, w, kind, suggest);
    var c := Categorize(st.registry, w, kind, suggest);
    var t := TokenFor(n, w, kind, c.tipo, w in c.registry);
    assert Accept(st, n, w, kind, suggest).tokens[|st.tokens|] == t;
    if kind != ID {
      if kind == PR {
        OneOfIff(w, ReservedWords);
      } else {
        NotIdStart(kind, w);
      }
      NotRegistered(c.registry, w, suggest);
    }
    TokenForCounts(st.counts, n, w, kind, c.tipo, w in c.registry);
  }

  /**
    A matched token has exactly the flag of its kind (the variable flag
    instead of the identifier flag for a registered ID), and adding its flags
    to the counters is the counter update of the source.
  */
  lemma TokenForCounts(c: Counts, n: nat, w: string, kind: Kind, tipo: Tipo, known: bool)
    requires kind != ID ==> !known
    ensures var t := TokenFor(n, w, kind, tipo, known);
      Total(Flags(t)) == 1 && Plus(c, Flags(t)) == Bump(c, kind, known)
  {
    var t := TokenFor(n, w, kind, tipo, known);
    match kind {
      case PR => assert Flags(t) == Counts(1, 0, 0, 0, 0, 0);
      case ID =>
        if known {
          assert Flags(t) == Counts(0, 0, 1, 0, 0, 0);
        } else {
          assert Flags(t) == Counts(0, 1, 0, 0, 0, 0);
        }
      case NUM => assert Flags(t) == Counts(0, 0, 0, 1, 0, 0);
      case STRING => assert Flags(t) == Counts(0, 0, 0, 0, 1, 0);
      case SYMBOL => assert Flags(t) == Counts(0, 0, 0, 0, 0, 1);
    }
  }

  /** A keyword, or a word that cannot start an identifier, is never a registered name. */
  lemma NotRegistered(vars: seq<string>, w: string, suggest: Suggester)
    requires RegistryInvariant(vars, suggest)
    requires w in ReservedWords || (w != [] && !IsIdStart(w[0]))
    ensures w !in vars
  {
    forall k | 0 <= k < |vars| ensures vars[k] != w {
      assert IsIdentifierName(vars[k]) && vars[k] !in ReservedWords;
    }
  }

  /**
    Under the registry invariant, an accepted token and the error it reports
    depend only on the text, never on which names were registered before.
  */
  lemma {:induction false} AcceptIgnoresRegistry(st1: LexState, st2: LexState, n: nat, w: string, kind: Kind, suggest: Suggester)
    requires RegistryInvariant(st1.registry, suggest) && RegistryInvariant(st2.registry, suggest)
    requires Shaped(kind, w) && st1.tokens == st2.tokens && st1.errors == st2.errors
    ensures var a1, a2 := Accept(st1, n, w, kind, suggest), Accept(st2, n, w, kind, suggest);
      a1.tokens == a2.tokens && a1.errors == a2.errors
  {
    var c1, c2 := Categorize(st1.registry, w, kind, suggest), Categorize(st2.registry, w, kind, suggest);
    if kind == ID {
      OneOfIff(w, ValidTokens);
      OneOfIff(w, ReservedWords);
      RegisteredIff(st1.registry, w, suggest);
      RegisteredIff(st2.registry, w, suggest);
    } else {
      if kind == PR {
        OneOfIff(w, ReservedWords);
      } else {
        NotIdStart(kind, w);
      }
      NotRegistered(c1.registry, w, suggest);
      NotRegistered(c2.registry, w, suggest);
    }
    assert c1.tipo == c2.tipo && c1.error == c2.error && (w in c1.registry <==> w in c2.registry);
  }

  /**
    An ID match is recorded as a variable exactly when it is not `sum` and
    the suggestion engine has nothing for it, whatever the registry held.
  */
  lemma AcceptVariableIff(st: LexState, n: nat, w: string, suggest: Suggester)
    requires RegistryInvariant(st.registry, suggest) && Shaped(ID, w)
    ensures var a := Accept(st, n, w, ID, suggest);
      |a.tokens| == |st.tokens| + 1 &&
      (a.tokens[|st.tokens|].variable <==> w != "sum" && suggest(w).None?) &&
      a.tokens[|st.tokens|].identifier == !a.tokens[|st.tokens|].variable
  {
    OneOfIff(w, ValidTokens);
    OneOfIff(w, ReservedWords);
    RegisteredIff(st.registry, w, suggest);
  }

  /**
    A matched keyword, number, string or symbol (or an ID that is a
    vocabulary word) other than `sum`: its token has its kind's flag and the
    capitalized kind as `tipo`, its counter rises by one, no error is
    reported, and the registry is left as it was.
  */
  lemma AcceptOthers(st: LexState, n: nat, w: string, kind: Kind, suggest: Suggester)
    requires w != "sum"
    requires kind == ID ==> w in ValidTokens || w in ReservedWords
    requires kind == PR ==> w in ReservedWords
    ensures var known := w in st.registry;
      Accept(st, n, w, kind, suggest) ==
      LexState(st.registry, Bump(st.counts, kind, known), st.tokens + [TokenFor(n, w, kind, Capitalized(kind), known)], st.errors)
  {
    CategorizeOthers(st.registry, w, kind, suggest);
  }

  /**
    The `sum` special case in the lexer: an ID match `sum` becomes an
    `'Identificador inválido'` token counted as an identifier, reports the
    message about `suma`, and the registry is unchanged.
  */
  lemma SumInTheLexer(st: LexState, n: nat, suggest: Suggester)
    ensures var st' := Accept(st, n, "sum", ID, suggest);
      st'.registry == st.registry && st'.counts == Bump(st.counts, ID, "sum" in st.registry) &&
      st'.tokens == st.tokens + [Token(n, "sum", false, "sum" !in st.registry, "sum" in st.registry, false, false, false, InvalidIdentifier)] &&
      st'.errors == st.errors + [Expected(n, "suma", "sum")]
  {
  }

  // ---------------------------------------------------------------------------
  // The scan of one line
  // ---------------------------------------------------------------------------

  function Lexemes(ts: seq<Token>): (ws: seq<string>)
    ensures |ws| == |ts|
  {
    if ts == [] then [] else [ts[0].lexeme] + Lexemes(ts[1..])
  }

  lemma {:induction false} LexemesAppend(a: seq<Token>, b: seq<Token>)
    ensures Lexemes(a + b) == Lexemes(a) + Lexemes(b)
    decreases |a|
  {
    if a == [] {
      assert a + b == b;
    } else {
      assert (a + b)[0] == a[0] && (a + b)[1..] == a[1..] + b;
      LexemesAppend(a[1..], b);
    }
  }

  predicate AllTokensOnLine(ts: seq<Token>, n: nat) {
    forall k :: 0 <= k < |ts| ==> ts[k].line == n
  }

  /**
    `s` is exactly the words `ws`, in order, each non-empty, with nothing but
    whitespace characters before, between and after them.
  */
  predicate Tiles(s: string, ws: seq<string>)
    decreases |s|
  {
    if s == [] then ws == []
    else
      (IsSpace(s[0]) && Tiles(s[1..], ws)) ||
      (ws != [] && 0 < |ws[0]| <= |s| && s[..|ws[0]|] == ws[0] && Tiles(s[|ws[0]|..], ws[1..]))
  }

  /** Tiling words are no more numerous than the characters they tile. */
  lemma {:induction false} TilesBound(s: string, ws: seq<string>)
    requires Tiles(s, ws)
    ensures |ws| <= |s|
    decreases |s|
  {
    if s != [] {
      if IsSpace(s[0]) && Tiles(s[1..], ws) {
        TilesBound(s[1..], ws);
      } else {
        TilesBound(s[|ws[0]|..], ws[1..]);
      }
    }
  }

  /** `b` keeps the diagnostics of `a` and appends only diagnostics about line `n`. */
  predicate ErrorsGrow(a: seq<Diagnostic>, b: seq<Diagnostic>, n: nat) {
    |a| <= |b| && b[..|a|] == a && AllOnLine(b[|a|..], n)
  }

  lemma ErrorsGrowRefl(a: seq<Diagnostic>, n: nat)
    ensures ErrorsGrow(a, a, n)
  {
    assert a[|a|..] == [];
  }

  lemma ErrorsGrowChain(a: seq<Diagnostic>, b: seq<Diagnostic>, c: seq<Diagnostic>, n: nat)
    requires ErrorsGrow(a, b, n) && ErrorsGrow(b, c, n)
    ensures ErrorsGrow(a, c, n)
  {
    PrefixChain(a, b, c);
    var d := c[|a|..];
    forall k | 0 <= k < |d| ensures d[k].line == n {
      if k < |b| - |a| {
        assert d[k] == b[|a|..][k];
      } else {
        assert d[k] == c[|b|..][k - (|b| - |a|)];
      }
    }
  }

  /**
    From `a` to `b` exactly one token was appended, on line `n` and with
    lexeme `w`, and at most one diagnostic, about line `n`.
  */
  predicate Extends(a: LexState, b: LexState, n: nat, w: string) {
    |b.tokens| == |a.tokens| + 1 && b.tokens[..|a.tokens|] == a.tokens &&
    b.tokens[|a.tokens|].line == n && b.tokens[|a.tokens|].lexeme == w &&
    |b.errors| <= |a.errors| + 1 && ErrorsGrow(a.errors, b.errors, n)
  }

  /** An accepted match adds exactly its token, and at most one error on its line. */
  lemma AcceptGrows(st: LexState, n: nat, w: string, kind: Kind, suggest: Suggester)
    ensures Extends(st, Accept(st, n, w, kind, suggest), n, w)
  {
    var c := Categorize(st.registry, w, kind, suggest);
    var a := Accept(st, n, w, kind, suggest);
    assert a.errors == st.errors + ErrorsOf(c.error, n);
    assert a.errors[|st.errors|..] == ErrorsOf(c.error, n);
  }

  /** The fallback adds exactly the unknown token and its error, both on line `n`. */
  lemma FallbackGrows(st: LexState, n: nat, c: char)
    ensures Extends(st, Fallback(st, n, c), n, [c])
  {
    var f := Fallback(st, n, c);
    LastOne(f.errors, |st.errors|);
  }
  /**
    What the pattern loop's outcome does to the state: it appends one token
    holding exactly the text consumed, and at most one error, about line `n`.
  */
  lemma AdvanceExtends(st: LexState, line: string, n: nat, i: nat, hit: Option<Hit>, suggest: Suggester)
    requires Fits(line, i, hit)
    ensures var r := Advance(st, line, n, i, hit, suggest);
      Extends(st, r.0, n, line[i..r.1])
  {
    if hit.None? {
      FallbackExtends(st, line, n, i, suggest);
    } else {
      AcceptExtends(st, line, n, i, hit.value, suggest);
    }
  }

  /** `AdvanceExtends` without a match. */
  lemma FallbackExtends(st: LexState, line: string, n: nat, i: nat, suggest: Suggester)
    requires i < |line|
    ensures var r := Advance(st, line, n, i, None, suggest);
      Extends(st, r.0, n, line[i..r.1])
  {
    AdvanceFallsBack(st, line, n, i, suggest);
    FallbackSlice(st, line, n, i);
  }

  /** `AdvanceExtends` on a match. */
  lemma AcceptExtends(st: LexState, line: string, n: nat, i: nat, h: Hit, suggest: Suggester)
    requires Fits(line, i, Some(h))
    ensures var r := Advance(st, line, n, i, Some(h), suggest);
      Extends(st, r.0, n, line[i..r.1])
  {
    AdvanceAccepts(st, line, n, i, Some(h), suggest);
    AcceptGrows(st, n, h.lexeme, h.kind, suggest);
    ExtendsBySlice(st, Accept(st, n, h.lexeme, h.kind, suggest), n, line, i, i + |h.lexeme|, h.lexeme);
  }

  /** `Extends` only sees the text of the token, not where it came from. */
  lemma ExtendsBySlice(a: LexState, b: LexState, n: nat, line: string, i: nat, j: nat, w: string)
    requires Extends(a, b, n, w) && i <= j <= |line| && line[i..j] == w
    ensures Extends(a, b, n, line[i..j])
  {
  }

  /** `FallbackGrows` with the character read off the line. */
  lemma FallbackSlice(st: LexState, line: string, n: nat, i: nat)
    requires i < |line|
    ensures Extends(st, Fallback(st, n, line[i]), n, line[i..i + 1])
  {
    FallbackGrows(st, n, line[i]);
    assert line[i..i + 1] == [line[i]];
  }

  /** A step at a non-space character appends one token for the text it consumes, and at most one error. */
  lemma StepExtends(st: LexState, line: string, n: nat, i: nat, suggest: Suggester)
    requires i < |line| && !IsSpace(line[i])
    ensures var r := Step(st, line, n, i, suggest);
      Extends(st, r.0, n, line[i..r.1])
  {
    AdvanceExtends(st, line, n, i, FirstMatch(line, i), suggest);
  }


  /** The rest of a sequence from its last index is that one element. */
  lemma LastOne<T>(s: seq<T>, k: nat)
    requires |s| == k + 1
    ensures s[k..] == [s[k]]
  {
  }

  /** Prefixes compose: what `c` adds to `a` is what `b` adds, then what `c` adds to `b`. */
  lemma PrefixChain<T>(a: seq<T>, b: seq<T>, c: seq<T>)
    requires |a| <= |b| <= |c| && b[..|a|] == a && c[..|b|] == b
    ensures c[..|a|] == a && c[|a|..] == b[|a|..] + c[|b|..]
  {
    assert c[..|a|] == c[..|b|][..|a|];
  }

  lemma TilesSkip(s: string, ws: seq<string>)
    requires s != [] && IsSpace(s[0]) && Tiles(s[1..], ws)
    ensures Tiles(s, ws)
  {
  }

  lemma TilesTake(s: string, w: string, ws: seq<string>)
    requires 0 < |w| <= |s| && s[..|w|] == w && Tiles(s[|w|..], ws)
    ensures Tiles(s, [w] + ws)
  {
    assert ([w] + ws)[0] == w && ([w] + ws)[1..] == ws;
  }

  /** `b` extends `a` by tokens on line `n` whose lexemes tile `s`. */
  predicate TokensExtend(a: seq<Token>, b: seq<Token>, s: string, n: nat) {
    |a| <= |b| && b[..|a|] == a &&
    AllTokensOnLine(b[|a|..], n) && Tiles(s, Lexemes(b[|a|..]))
  }

  lemma ExtendSkip(a: seq<Token>, b: seq<Token>, line: string, i: nat, n: nat)
    requires i < |line| && IsSpace(line[i]) && TokensExtend(a, b, line[i + 1..], n)
    ensures TokensExtend(a, b, line[i..], n)
  {
    assert line[i..][1..] == line[i + 1..];
    TilesSkip(line[i..], Lexemes(b[|a|..]));
  }

  lemma ExtendTake(a: LexState, a1: LexState, b: seq<Token>, line: string, i: nat, j: nat, n: nat)
    requires i < j <= |line| && Extends(a, a1, n, line[i..j])
    requires TokensExtend(a1.tokens, b, line[j..], n)
    ensures TokensExtend(a.tokens, b, line[i..], n)
  {
    var t := a1.tokens[|a.tokens|];
    PrefixChain(a.tokens, a1.tokens, b);
    LastOne(a1.tokens, |a.tokens|);
    var new0, new1 := b[|a.tokens|..], b[|a1.tokens|..];
    assert new0 == [t] + new1;
    LexemesAppend([t], new1);
    var s := line[i..];
    assert s[..j - i] == t.lexeme;
    assert s[j - i..] == line[j..];
    TilesTake(s, t.lexeme, Lexemes(new1));
  }

  /**
    Reconstruction: the scan of a line from `i` only appends; the tokens it
    appends are all on line `n`, and their lexemes, interleaved with the
    whitespace the scan skipped, make up the rest of the line exactly.
  */
  lemma {:induction false} ScanFromTiles(st: LexState, line: string, n: nat, i: nat, suggest: Suggester)
    requires i <= |line|
    ensures TokensExtend(st.tokens, ScanFrom(st, line, n, i, suggest).tokens, line[i..], n)
    decreases |line| - i
  {
    if i < |line| {
      var next := Step(st, line, n, i, suggest);
      var st1, i1 := next.0, next.1;
      ScanFromTiles(st1, line, n, i1, suggest);
      var r := ScanFrom(st, line, n, i, suggest);
      if IsSpace(line[i]) {
        ExtendSkip(st.tokens, r.tokens, line, i, n);
      } else {
        StepExtends(st, line, n, i, suggest);
        ExtendTake(st, st1, r.tokens, line, i, i1, n);
      }
    } else {
      assert line[i..] == [];
      assert st.tokens[|st.tokens|..] == [];
    }
  }

  /** The errors of the scan of a line are appended, and all about that line. */
  lemma {:induction false} ScanFromErrors(st: LexState, line: string, n: nat, i: nat, suggest: Suggester)
    requires i <= |line|
    ensures ErrorsGrow(st.errors, ScanFrom(st, line, n, i, suggest).errors, n)
    decreases |line| - i
  {
    if i < |line| {
      var next := Step(st, line, n, i, suggest);
      var st1, i1 := next.0, next.1;
      ScanFromErrors(st1, line, n, i1, suggest);
      if !IsSpace(line[i]) {
        StepExtends(st, line, n, i, suggest);
        ErrorsGrowChain(st.errors, st1.errors, ScanFrom(st1, line, n, i1, suggest).errors, n);
      }
    } else {
      ErrorsGrowRefl(st.errors, n);
    }
  }

  /** Every token has exactly one flag set, unless it is unknown and has none. */
  predicate OneCategory(t: Token) {
    (t.tipo.Unknown? ==> Flags(t) == NoCounts) && (!t.tipo.Unknown? ==> Total(Flags(t)) == 1)
  }

  /**
    The counters of `st` are the base `base` plus one for each flag its
    tokens carry, and each token has exactly one flag set, or none when it
    is unknown.
  */
  predicate CountsTokens(st: LexState, base: Counts) {
    st.counts == Plus(base, Tally(st.tokens)) &&
    forall k :: 0 <= k < |st.tokens| ==> OneCategory(st.tokens[k])
  }

  /** Appending one token and counting its flags keeps `CountsTokens`. */
  lemma CountedSnoc(a: LexState, b: LexState, t: Token, base: Counts)
    requires CountsTokens(a, base) && OneCategory(t)
    requires |b.tokens| == |a.tokens| + 1 && b.tokens[..|a.tokens|] == a.tokens && b.tokens[|a.tokens|] == t
    requires b.counts == Plus(a.counts, Flags(t))
    ensures CountsTokens(b, base)
  {
    assert Tally(b.tokens) == Plus(Tally(a.tokens), Flags(t));
    PlusAssoc(base, Tally(a.tokens), Flags(t));
    forall k | 0 <= k < |b.tokens| ensures OneCategory(b.tokens[k]) {
      if k < |a.tokens| {
        assert b.tokens[k] == b.tokens[..|a.tokens|][k];
      } else {
        assert b.tokens[k] == t;
      }
    }
  }

  /** The registry facts of one iteration: the registry only grows and keeps its invariant. */
  lemma AdvanceRegistry(st: LexState, line: string, n: nat, i: nat, hit: Option<Hit>, suggest: Suggester)
    requires HitOk(line, i, hit) && RegistryInvariant(st.registry, suggest)
    ensures var st1 := Advance(st, line, n, i, hit, suggest).0;
      RegistryInvariant(st1.registry, suggest) && st.registry <= st1.registry
  {
    if hit.Some? {
      CategorizeKeepsInvariant(st.registry, hit.value.lexeme, hit.value.kind, suggest);
      CategorizeRegisters(st.registry, hit.value.lexeme, hit.value.kind, suggest);
    }
  }

  lemma StepRegistry(st: LexState, line: string, n: nat, i: nat, suggest: Suggester)
    requires i < |line| && RegistryInvariant(st.registry, suggest)
    ensures var st1 := Step(st, line, n, i, suggest).0;
      RegistryInvariant(st1.registry, suggest) && st.registry <= st1.registry
  {
    if !IsSpace(line[i]) {
      AdvanceRegistry(st, line, n, i, FirstMatch(line, i), suggest);
    }
  }

  lemma FallbackCounted(st: LexState, n: nat, c: char, base: Counts)
    requires CountsTokens(st, base)
    ensures CountsTokens(Fallback(st, n, c), base)
  {
    var u := UnknownToken(n, c);
    var f := Fallback(st, n, c);
    assert Flags(u) == NoCounts;
    PlusZero(st.counts);
    assert f.tokens[..|st.tokens|] == st.tokens && f.tokens[|st.tokens|] == u;
    CountedSnoc(st, f, u, base);
  }

  lemma AcceptCounted(st: LexState, n: nat, w: string, kind: Kind, suggest: Suggester, base: Counts)
    requires RegistryInvariant(st.registry, suggest) && CountsTokens(st, base) && Shaped(kind, w)
    ensures CountsTokens(Accept(st, n, w, kind, suggest), base)
  {
    AcceptCounts(st, n, w, kind, suggest);
    AcceptGrows(st, n, w, kind, suggest);
    var a := Accept(st, n, w, kind, suggest);
    assert Extends(st, a, n, w);
    CountedSnoc(st, a, a.tokens[|st.tokens|], base);
  }

  /** One iteration counts what it emits. */
  lemma AdvanceCounted(st: LexState, line: string, n: nat, i: nat, hit: Option<Hit>, suggest: Suggester, base: Counts)
    requires HitOk(line, i, hit) && RegistryInvariant(st.registry, suggest) && CountsTokens(st, base)
    ensures CountsTokens(Advance(st, line, n, i, hit, suggest).0, base)
  {
    if hit.None? {
      FallbackCounted(st, n, line[i], base);
    } else {
      AcceptCounted(st, n, hit.value.lexeme, hit.value.kind, suggest, base);
    }
  }

  lemma StepCounted(st: LexState, line: string, n: nat, i: nat, suggest: Suggester, base: Counts)
    requires i < |line| && RegistryInvariant(st.registry, suggest) && CountsTokens(st, base)
    ensures CountsTokens(Step(st, line, n, i, suggest).0, base)
  {
    if !IsSpace(line[i]) {
      AdvanceCounted(st, line, n, i, FirstMatch(line, i), suggest, base);
    }
  }

  /** The scan of a line keeps the registry invariant, and the registry only grows. */
  lemma {:induction false} ScanFromRegistry(st: LexState, line: string, n: nat, i: nat, suggest: Suggester)
    requires i <= |line| && RegistryInvariant(st.registry, suggest)
    ensures var r := ScanFrom(st, line, n, i, suggest);
      RegistryInvariant(r.registry, suggest) && st.registry <= r.registry
    decreases |line| - i
  {
    if i < |line| {
      var next := Step(st, line, n, i, suggest);
      StepRegistry(st, line, n, i, suggest);
      ScanFromRegistry(next.0, line, n, next.1, suggest);
    }
  }

  /** The scan of a line keeps the counting invariant. */
  lemma {:induction false} ScanFromCounts(st: LexState, line: string, n: nat, i: nat, suggest: Suggester, base: Counts)
    requires i <= |line| && RegistryInvariant(st.registry, suggest) && CountsTokens(st, base)
    ensures CountsTokens(ScanFrom(st, line, n, i, suggest), base)
    decreases |line| - i
  {
    if i < |line| {
      var next := Step(st, line, n, i, suggest);
      StepCounted(st, line, n, i, suggest, base);
      StepRegistry(st, line, n, i, suggest);
      ScanFromCounts(next.0, line, n, next.1, suggest, base);
    }
  }

  /** Two scans that agree on tokens and errors and keep the invariant still agree after an iteration. */
  lemma AdvanceIgnoresRegistry(st1: LexState, st2: LexState, line: string, n: nat, i: nat, hit: Option<Hit>, suggest: Suggester)
    requires HitOk(line, i, hit)
    requires RegistryInvariant(st1.registry, suggest) && RegistryInvariant(st2.registry, suggest)
    requires st1.tokens == st2.tokens && st1.errors == st2.errors
    ensures var r1, r2 := Advance(st1, line, n, i, hit, suggest), Advance(st2, line, n, i, hit, suggest);
      r1.1 == r2.1 && r1.0.tokens == r2.0.tokens && r1.0.errors == r2.0.errors
  {
    if hit.Some? {
      AcceptIgnoresRegistry(st1, st2, n, hit.value.lexeme, hit.value.kind, suggest);
    }
  }

  lemma StepIgnoresRegistry(st1: LexState, st2: LexState, line: string, n: nat, i: nat, suggest: Suggester)
    requires i < |line|
    requires RegistryInvariant(st1.registry, suggest) && RegistryInvariant(st2.registry, suggest)
    requires st1.tokens == st2.tokens && st1.errors == st2.errors
    ensures var r1, r2 := Step(st1, line, n, i, suggest), Step(st2, line, n, i, suggest);
      r1.1 == r2.1 && r1.0.tokens == r2.0.tokens && r1.0.errors == r2.0.errors
  {
    if !IsSpace(line[i]) {
      AdvanceIgnoresRegistry(st1, st2, line, n, i, FirstMatch(line, i), suggest);
    }
  }

  lemma {:induction false} ScanFromIgnoresRegistry(st1: LexState, st2: LexState, line: string, n: nat, i: nat, suggest: Suggester)
    requires i <= |line|
    requires RegistryInvariant(st1.registry, suggest) && RegistryInvariant(st2.registry, suggest)
    requires st1.tokens == st2.tokens && st1.errors == st2.errors
    ensures var r1, r2 := ScanFrom(st1, line, n, i, suggest), ScanFrom(st2, line, n, i, suggest);
      r1.tokens == r2.tokens && r1.errors == r2.errors
    decreases |line| - i
  {
    if i < |line| {
      StepIgnoresRegistry(st1, st2, line, n, i, suggest);
      StepRegistry(st1, line, n, i, suggest);
      StepRegistry(st2, line, n, i, suggest);
      var s1, s2 := Step(st1, line, n, i, suggest), Step(st2, line, n, i, suggest);
      ScanFromIgnoresRegistry(s1.0, s2.0, line, n, s1.1, suggest);
    }
  }

  // ---------------------------------------------------------------------------
  // The scan of all lines
  // ---------------------------------------------------------------------------

  /** The lexemes of the tokens on line `n`, in order. */
  function LexemesOnLine(ts: seq<Token>, n: nat): seq<string> {
    if ts == [] then []
    else LexemesOnLine(ts[..|ts| - 1], n) + (if ts[|ts| - 1].line == n then [ts[|ts| - 1].lexeme] else [])
  }

  lemma {:induction false} LexemesOnLineAppend(a: seq<Token>, b: seq<Token>, n: nat)
    ensures LexemesOnLine(a + b, n) == LexemesOnLine(a, n) + LexemesOnLine(b, n)
    decreases |b|
  {
    if b == [] {
      assert a + b == a;
    } else {
      assert (a + b)[..|a + b| - 1] == a + b[..|b| - 1];
      LexemesOnLineAppend(a, b[..|b| - 1], n);
    }
  }

  lemma {:induction false} LexemesOnOtherLine(ts: seq<Token>, n: nat)
    requires forall k :: 0 <= k < |ts| ==> ts[k].line != n
    ensures LexemesOnLine(ts, n) == []
    decreases |ts|
  {
    if ts != [] {
      LexemesOnOtherLine(ts[..|ts| - 1], n);
    }
  }

  lemma {:induction false} LexemesOnSameLine(ts: seq<Token>, n: nat)
    requires AllTokensOnLine(ts, n)
    ensures LexemesOnLine(ts, n) == Lexemes(ts)
    decreases |ts|
  {
    if ts != [] {
      LexemesOnSameLine(ts[..|ts| - 1], n);
      assert ts == ts[..|ts| - 1] + [ts[|ts| - 1]];
      LexemesAppend(ts[..|ts| - 1], [ts[|ts| - 1]]);
    }
  }

  /** Token line numbers lie in `1..m` and never decrease. */
  predicate LinesOrdered(ts: seq<Token>, m: nat) {
    (forall k :: 0 <= k < |ts| ==> 1 <= ts[k].line <= m) &&
    (forall a, b :: 0 <= a < b < |ts| ==> ts[a].line <= ts[b].line)
  }

  /**
    The tokens come in line order, each on one of the lines, and the lexemes
    of the tokens on line `n`, with whitespace between them, make up line `n`.
  */
  predicate TokensByLine(ts: seq<Token>, lines: seq<string>) {
    LinesOrdered(ts, |lines|) &&
    forall n :: 1 <= n <= |lines| ==> Tiles(lines[n - 1], LexemesOnLine(ts, n))
  }

  /** Diagnostics in line order, each about one of the lines `1..m`. */
  predicate ErrorsByLine(ds: seq<Diagnostic>, m: nat) {
    InLineOrder(ds) && forall k :: 0 <= k < |ds| ==> 1 <= ds[k].line <= m
  }

  lemma TokensByLineSnoc(ts: seq<Token>, more: seq<Token>, lines: seq<string>)
    requires lines != []
    requires TokensByLine(ts, lines[..|lines| - 1])
    requires AllTokensOnLine(more, |lines|) && Tiles(lines[|lines| - 1], Lexemes(more))
    ensures TokensByLine(ts + more, lines)
  {
    var m := |lines|;
    var init := lines[..m - 1];
    var r := ts + more;
    forall n | 1 <= n <= m
      ensures Tiles(lines[n - 1], LexemesOnLine(r, n))
    {
      LexemesOnLineAppend(ts, more, n);
      if n == m {
        LexemesOnOtherLine(ts, m);
        LexemesOnSameLine(more, m);
        assert LexemesOnLine(r, n) == [] + Lexemes(more) == Lexemes(more);
      } else {
        assert lines[n - 1] == init[n - 1];
        assert Tiles(init[n - 1], LexemesOnLine(ts, n));
        LexemesOnOtherLine(more, n);
        assert LexemesOnLine(r, n) == LexemesOnLine(ts, n) + [] == LexemesOnLine(ts, n);
      }
    }
    forall a, b | 0 <= a < b < |r|
      ensures r[a].line <= r[b].line
    {
      if b >= |ts| {
        assert r[b] == more[b - |ts|];
        if a >= |ts| {
          assert r[a] == more[a - |ts|];
        }
      }
    }
    forall k | 0 <= k < |r|
      ensures 1 <= r[k].line <= m
    {
      if k >= |ts| {
        assert r[k] == more[k - |ts|];
      }
    }
  }

  lemma ErrorsByLineSnoc(ds: seq<Diagnostic>, more: seq<Diagnostic>, m: nat)
    requires m >= 1 && ErrorsByLine(ds, m - 1) && AllOnLine(more, m)
    ensures ErrorsByLine(ds + more, m)
  {
    var r := ds + more;
    forall a, b | 0 <= a < b < |r|
      ensures r[a].line <= r[b].line
    {
      if b >= |ds| {
        assert r[b] == more[b - |ds|];
        if a >= |ds| {
          assert r[a] == more[a - |ds|];
        }
      }
    }
    forall k | 0 <= k < |r|
      ensures 1 <= r[k].line <= m
    {
      if k >= |ds| {
        assert r[k] == more[k - |ds|];
      }
    }
  }

  /** The tiling of `ScanFromTiles` for a whole line. */
  lemma ScanLineTiles(st: LexState, line: string, n: nat, suggest: Suggester)
    ensures TokensExtend(st.tokens, ScanFrom(st, line, n, 0, suggest).tokens, line, n)
  {
    ScanFromTiles(st, line, n, 0, suggest);
    assert line[0..] == line;
  }

  /** A sequence with prefix `p` is `p` followed by the rest. */
  lemma SplitAt<T>(p: seq<T>, x: seq<T>)
    requires |p| <= |x| && x[..|p|] == p
    ensures x == p + x[|p|..]
  {
  }

  lemma TokensByLineExtend(ts: seq<Token>, r: seq<Token>, lines: seq<string>)
    requires lines != [] && TokensByLine(ts, lines[..|lines| - 1])
    requires TokensExtend(ts, r, lines[|lines| - 1], |lines|)
    ensures TokensByLine(r, lines)
  {
    SplitAt(ts, r);
    TokensByLineSnoc(ts, r[|ts|..], lines);
  }

  lemma ErrorsByLineExtend(ds: seq<Diagnostic>, r: seq<Diagnostic>, m: nat)
    requires m >= 1 && ErrorsByLine(ds, m - 1)
    requires ErrorsGrow(ds, r, m)
    ensures ErrorsByLine(r, m)
  {
    SplitAt(ds, r);
    ErrorsByLineSnoc(ds, r[|ds|..], m);
  }

  /**
    Reconstruction over a whole program: the tokens come in line order, each
    on an existing line, and the lexemes of the tokens on line `n`, with the
    skipped whitespace between them, make up line `n` exactly.
  */
  lemma {:induction false} ScanLinesTiles(st: LexState, lines: seq<string>, suggest: Suggester)
    requires st.tokens == []
    ensures TokensByLine(ScanLines(st, lines, suggest).tokens, lines)
    decreases |lines|
  {
    if lines != [] {
      var m := |lines|;
      ScanLinesTiles(st, lines[..m - 1], suggest);
      var mid := ScanLines(st, lines[..m - 1], suggest);
      ScanLineTiles(mid, lines[m - 1], m, suggest);
      TokensByLineExtend(mid.tokens, ScanLines(st, lines, suggest).tokens, lines);
    }
  }

  /** The lexical errors of a program come in line order, each about an existing line. */
  lemma {:induction false} ScanLinesErrors(st: LexState, lines: seq<string>, suggest: Suggester)
    requires st.errors == []
    ensures ErrorsByLine(ScanLines(st, lines, suggest).errors, |lines|)
    decreases |lines|
  {
    if lines != [] {
      var m := |lines|;
      ScanLinesErrors(st, lines[..m - 1], suggest);
      var mid := ScanLines(st, lines[..m - 1], suggest);
      ScanFromErrors(mid, lines[m - 1], m, 0, suggest);
      ErrorsByLineExtend(mid.errors, ScanLines(st, lines, suggest).errors, m);
    }
  }

  /** The scan of a program keeps the registry invariant, and the registry only grows. */
  lemma {:induction false} ScanLinesRegistry(st: LexState, lines: seq<string>, suggest: Suggester)
    requires RegistryInvariant(st.registry, suggest)
    ensures var r := ScanLines(st, lines, suggest);
      RegistryInvariant(r.registry, suggest) && st.registry <= r.registry
    decreases |lines|
  {
    if lines != [] {
      var m := |lines|;
      ScanLinesRegistry(st, lines[..m - 1], suggest);
      ScanFromRegistry(ScanLines(st, lines[..m - 1], suggest), lines[m - 1], m, 0, suggest);
    }
  }

  lemma {:induction false} ScanLinesCounts(st: LexState, lines: seq<string>, suggest: Suggester, base: Counts)
    requires RegistryInvariant(st.registry, suggest) && CountsTokens(st, base)
    ensures CountsTokens(ScanLines(st, lines, suggest), base)
    decreases |lines|
  {
    if lines != [] {
      var m := |lines|;
      ScanLinesCounts(st, lines[..m - 1], suggest, base);
      ScanLinesRegistry(st, lines[..m - 1], suggest);
      ScanFromCounts(ScanLines(st, lines[..m - 1], suggest), lines[m - 1], m, 0, suggest, base);
    }
  }

  /**
    Counting over a whole program, from an empty token list: the counters
    grow by exactly the number of tokens carrying each flag, every token has
    exactly one flag unless it is unknown, and the registry keeps its
    invariant and only grows.
  */
  lemma LexCounts(st: LexState, code: string, suggest: Suggester)
    requires RegistryInvariant(st.registry, suggest) && st.tokens == []
    ensures var r := Lex(st, code, suggest);
      r.counts == Plus(st.counts, Tally(r.tokens)) &&
      (forall k :: 0 <= k < |r.tokens| ==> OneCategory(r.tokens[k])) &&
      RegistryInvariant(r.registry, suggest) && st.registry <= r.registry
  {
    PlusZero(st.counts);
    ScanLinesCounts(st, Lines(code), suggest, st.counts);
    ScanLinesRegistry(st, Lines(code), suggest);
  }

  /**
    History independence: under the registry invariant, the tokens and the
    lexical errors of a program do not depend on which names were registered
    before, nor on the counters; only the counters carry history over.
  */
  lemma {:induction false} ScanLinesIgnoresRegistry(st1: LexState, st2: LexState, lines: seq<string>, suggest: Suggester)
    requires RegistryInvariant(st1.registry, suggest) && RegistryInvariant(st2.registry, suggest)
    requires st1.tokens == st2.tokens && st1.errors == st2.errors
    ensures var r1, r2 := ScanLines(st1, lines, suggest), ScanLines(st2, lines, suggest);
      r1.tokens == r2.tokens && r1.errors == r2.errors
    decreases |lines|
  {
    if lines != [] {
      var m := |lines|;
      ScanLinesIgnoresRegistry(st1, st2, lines[..m - 1], suggest);
      ScanLinesRegistry(st1, lines[..m - 1], suggest);
      ScanLinesRegistry(st2, lines[..m - 1], suggest);
      var mid1, mid2 := ScanLines(st1, lines[..m - 1], suggest), ScanLines(st2, lines[..m - 1], suggest);
      ScanFromIgnoresRegistry(mid1, mid2, lines[m - 1], m, 0, suggest);
    }
  }
}
