/**
  The process-wide state of `analizar.py` and the operations that change it:
  the registry `variables` and the six counters of `token_count` as the
  fields of an `Analyzer`, with `reset_token_count`, `categorize_token` and
  `lex_analyze` as its methods. `LexAnalyze` is proved to compute what
  `Lexer.Lex` describes, followed by the output of the six checkers.
*/
module Analysis {
  import opened Wrappers
  import opened Text
  import opened Diagnostics
  import opened Patterns
  import opened Classify
  import opened Lexer
  import opened Braces
  import opened LineCheckers

  /**
    What `lex_analyze` appends after the lexical errors (analizar.py:211-227):
    the outputs of the six checkers, in this order.
  */
  function StructuralErrors(code: string): seq<Diagnostic> {
    var lines := Lines(code);
    BraceErrors(code) + PerLine(lines, MissingCommas) + PerLine(lines, MissingOperators) +
    PerLine(lines, MissingSemicolons) + PerLine(lines, VariableDeclarations) + PerLine(lines, MalformedCalls)
  }

  /**
    Each of the five line checkers reports in line order and only about
    lines of the text, so the structural errors after the brace report fall
    into five runs, each sorted by line.
  */
  lemma StructuralErrorsByChecker(code: string)
    ensures var lines := Lines(code);
      var runs := [PerLine(lines, MissingCommas), PerLine(lines, MissingOperators),
        PerLine(lines, MissingSemicolons), PerLine(lines, VariableDeclarations), PerLine(lines, MalformedCalls)];
      StructuralErrors(code) == BraceErrors(code) + runs[0] + runs[1] + runs[2] + runs[3] + runs[4] &&
      forall j :: 0 <= j < 5 ==>
        InLineOrder(runs[j]) && forall k :: 0 <= k < |runs[j]| ==> 1 <= runs[j][k].line <= |lines|
  {
    var lines := Lines(code);
    CheckersAreLineLocal();
    PerLineOrdered(lines, MissingCommas);
    PerLineOrdered(lines, MissingOperators);
    PerLineOrdered(lines, MissingSemicolons);
    PerLineOrdered(lines, VariableDeclarations);
    PerLineOrdered(lines, MalformedCalls);
  }

  /** The six checkers run one after the other (analizar.py:211-227). */
  method CheckStructure(code: string) returns (errors: seq<Diagnostic>)
    ensures errors == StructuralErrors(code)
  {
    var lines := Lines(code);
    errors := CheckParenthesesAndBraces(code);
    errors := errors + PerLine(lines, MissingCommas) + PerLine(lines, MissingOperators) +
      PerLine(lines, MissingSemicolons) + PerLine(lines, VariableDeclarations) + PerLine(lines, MalformedCalls);
  }

  /**
    The `for token_type, pattern in patterns.items()` loop of `lex_analyze`
    (analizar.py:157-160, 193-194): the recognisers are tried in order and
    the first that matches at `index` wins.
  */
  method MatchAt(line: string, index: nat) returns (hit: Option<Hit>)
    requires index < |line|
    ensures hit == FirstMatch(line, index)
  {
    var j := 0;
    while j < |PatternOrder|
      invariant 0 <= j <= |PatternOrder|
      invariant FirstPattern(line, index, j) == FirstPattern(line, index, 0)
    {
      var m := Recognise(PatternOrder[j], line, index);
      if m.Some? {
        FirstMatchFrom(line, index, j);
        return Some(Hit(PatternOrder[j], line[index..index + m.value]));
      }
      FirstPatternSkip(line, index, j);
      j := j + 1;
    }
    NoMatchAfterAll(line, index);
    return None;
  }

  /**
    Repeated analysis without a reset (the `/analyze` route does not reset):
    the second run yields the same tokens and errors as the first, and the
    counters grow once more by the same amounts.
  */
  lemma RepeatedAnalysis(vars: seq<string>, counts: Counts, code: string, suggest: Suggester)
    requires RegistryInvariant(vars, suggest)
    ensures var r1 := Lex(LexState(vars, counts, [], []), code, suggest);
      var r2 := Lex(LexState(r1.registry, r1.counts, [], []), code, suggest);
      r2.tokens == r1.tokens && r2.errors == r1.errors &&
      r2.counts == Plus(Plus(counts, Tally(r1.tokens)), Tally(r1.tokens))
  {
    var st1 := LexState(vars, counts, [], []);
    var r1 := Lex(st1, code, suggest);
    LexCounts(st1, code, suggest);
    var st2 := LexState(r1.registry, r1.counts, [], []);
    LexCounts(st2, code, suggest);
    ScanLinesIgnoresRegistry(st1, st2, Lines(code), suggest);
  }

  /**
    The analysis engine: the global list `variables`, the six counters of
    the global dict `token_count`, and `find_closest_token`, which is fixed
    for the lifetime of the process.
  */
  class Analyzer {
    const suggest: Suggester
    var variables: seq<string>
    var reserved: nat     // 'Palabra Reservada'
    var identifier: nat   // 'Identificador'
    var variable: nat     // 'Variable'
    var number: nat       // 'Número'
    var str: nat          // 'Cadena'
    var symbol: nat       // 'Símbolo'

    function TokenCount(): Counts
      reads this
    {
      Counts(reserved, identifier, variable, number, str, symbol)
    }

    /** The registry invariant of `Classify.RegistryInvariant`. */
    ghost predicate Valid()
      reads this
    {
      RegistryInvariant(variables, suggest)
    }

    /** The lexer state the fields describe, with the token and error lists built so far. */
    function State(tokens: seq<Token>, errors: seq<Diagnostic>): LexState
      reads this
    {
      LexState(variables, TokenCount(), tokens, errors)
    }

    /** The module-level initialisation (analizar.py:20-30): no names, all counters zero. */
    constructor(suggest: Suggester)
      ensures this.suggest == suggest && variables == [] && TokenCount() == NoCounts
      ensures Valid()
    {
      this.suggest := suggest;
      variables := [];
      reserved, identifier, variable, number, str, symbol := 0, 0, 0, 0, 0, 0;
    }

    /** `reset_token_count` (analizar.py:33-42): the counters go back to zero, the registry stays. */
    method Reset()
      modifies this
      ensures TokenCount() == NoCounts && variables == old(variables)
      ensures old(Valid()) ==> Valid()
    {
      reserved, identifier, variable, number, str, symbol := 0, 0, 0, 0, 0, 0;
    }

    /**
      `categorize_token` (analizar.py:232-249), which appends a new name to
      `variables`. It keeps the registry invariant when an ID token has the
      shape of an identifier, as every ID match does.
    */
    method CategorizeToken(token: string, kind: Kind) returns (tipo: Tipo, error: Option<Expectation>, suggestion: Option<string>)
      modifies this
      ensures Categorization(tipo, error, suggestion, variables) == Categorize(old(variables), token, kind, suggest)
      ensures TokenCount() == old(TokenCount())
      ensures old(Valid()) && (kind == ID ==> IsIdentifierName(token)) ==> Valid()
    {
      CategorizeKeepsInvariantIf(variables, token, kind);
      var sumError := ValidarSuma(token);
      if sumError.Some? {
        return InvalidIdentifier, sumError, Some("suma");
      }
      if kind == ID && !OneOf(token, ValidTokens) && !OneOf(token, ReservedWords) {
        var s := suggest(token);
        if s.Some? {
          return InvalidIdentifier, Some(Expectation(s.value, token)), s;
        }
        if token !in variables {
          variables := variables + [token];
        }
        return Identifier, None, None;
      } else if kind == PR && !OneOf(token, ReservedWords) {
        var s := suggest(token);
        var shown := if s.Some? then s.value else "None";
        return InvalidReservedWord, Some(Expectation(shown, token)), s;
      }
      return Capitalized(kind), None, None;
    }

    lemma CategorizeKeepsInvariantIf(vars: seq<string>, token: string, kind: Kind)
      ensures RegistryInvariant(vars, suggest) && (kind == ID ==> IsIdentifierName(token)) ==>
        RegistryInvariant(Categorize(vars, token, kind, suggest).registry, suggest)
    {
      if RegistryInvariant(vars, suggest) && (kind == ID ==> IsIdentifierName(token)) {
        CategorizeKeepsInvariant(vars, token, kind, suggest);
      }
    }

    /** The counter update of analizar.py:165-178; `known` is membership in `variables`. */
    method CountToken(kind: Kind, known: bool)
      modifies this
      ensures TokenCount() == Bump(old(TokenCount()), kind, known) && variables == old(variables)
    {
      match kind
      case PR => reserved := reserved + 1;
      case ID =>
        if known {
          variable := variable + 1;
        } else {
          identifier := identifier + 1;
        }
      case NUM => number := number + 1;
      case STRING => str := str + 1;
      case SYMBOL => symbol := symbol + 1;
    }

    /**
      `lex_analyze` (analizar.py:147-229). The tokens, the new registry and
      the new counters are those of `Lexer.Lex` started from the old
      registry and counters; the errors are the lexical ones followed by the
      six checkers' (`StructuralErrors`); the counters returned are the
      fields themselves. Under the registry invariant the counters grow by
      exactly one per flag the new tokens carry, and the registry only grows.
    */
    method LexAnalyze(code: string) returns (tokens: seq<Token>, errors: seq<Diagnostic>, counts: Counts)
      modifies this
      ensures var r := Lex(LexState(old(variables), old(TokenCount()), [], []), code, suggest);
        tokens == r.tokens && variables == r.registry && TokenCount() == r.counts &&
        errors == r.errors + StructuralErrors(code)
      ensures counts == TokenCount()
      ensures old(Valid()) ==>
        (Valid() && old(variables) <= variables &&
         TokenCount() == Plus(old(TokenCount()), Tally(tokens)) &&
         forall k :: 0 <= k < |tokens| ==> OneCategory(tokens[k]))
    {
      ghost var st0 := State([], []);
      if Valid() {
        LexCounts(st0, code, suggest);
      }
      tokens, errors := LexLines(Lines(code));
      var structural := CheckStructure(code);
      errors := errors + structural;
      counts := TokenCount();
    }

    /** The scanning loop of `lex_analyze` over all lines, numbered from 1 (analizar.py:148-209). */
    method LexLines(lines: seq<string>) returns (tokens: seq<Token>, errors: seq<Diagnostic>)
      modifies this
      ensures State(tokens, errors) == ScanLines(old(State([], [])), lines, suggest)
    {
      tokens, errors := [], [];
      var ln := 0;
      while ln < |lines|
        invariant 0 <= ln <= |lines|
        invariant State(tokens, errors) == ScanLines(old(State([], [])), lines[..ln], suggest)
      {
        tokens, errors := LexLine(lines[ln], ln + 1, tokens, errors);
        assert lines[..ln + 1][..ln] == lines[..ln];
        ln := ln + 1;
      }
      assert lines[..ln] == lines;
    }

    /**
      The `while index < len(line)` loop of `lex_analyze` over line `n`
      (analizar.py:151-209).
    */
    method LexLine(line: string, n: nat, tokens0: seq<Token>, errors0: seq<Diagnostic>)
      returns (tokens: seq<Token>, errors: seq<Diagnostic>)
      modifies this
      ensures State(tokens, errors) == ScanFrom(old(State(tokens0, errors0)), line, n, 0, suggest)
    {
      tokens, errors := tokens0, errors0;
      var index := 0;
      while index < |line|
        invariant index <= |line|
        invariant ScanFrom(State(tokens, errors), line, n, index, suggest) ==
          ScanFrom(old(State(tokens0, errors0)), line, n, 0, suggest)
        decreases |line| - index
      {
        index, tokens, errors := LexStep(line, n, index, tokens, errors);
      }
    }

    /**
      One iteration of the loop over a line: skip whitespace, or else take
      the first recogniser's match and move past it, or else emit one
      unknown character and move on by one (analizar.py:153-209).
    */
    method LexStep(line: string, n: nat, index: nat, tokens0: seq<Token>, errors0: seq<Diagnostic>)
      returns (next: nat, tokens: seq<Token>, errors: seq<Diagnostic>)
      requires index < |line|
      modifies this
      ensures State(tokens, errors) == Step(old(State(tokens0, errors0)), line, n, index, suggest).0
      ensures next == Step(old(State(tokens0, errors0)), line, n, index, suggest).1
    {
      if IsSpace(line[index]) {
        return index + 1, tokens0, errors0;
      }
      var hit := MatchAt(line, index);
      next, tokens, errors := AdvanceAt(line, n, index, hit, tokens0, errors0);
    }

    /**
      The pattern loop's outcome put to use (analizar.py:161-209): accept
      the match and move past it, or fall back to an unknown character.
    */
    method AdvanceAt(line: string, n: nat, index: nat, hit: Option<Hit>, tokens0: seq<Token>, errors0: seq<Diagnostic>)
      returns (next: nat, tokens: seq<Token>, errors: seq<Diagnostic>)
      requires Fits(line, index, hit)
      modifies this
      ensures State(tokens, errors) == Lexer.Advance(old(State(tokens0, errors0)), line, n, index, hit, suggest).0
      ensures next == Lexer.Advance(old(State(tokens0, errors0)), line, n, index, hit, suggest).1
    {
      ghost var st := State(tokens0, errors0);
      if hit.Some? {
        tokens, errors := AcceptToken(n, hit.value.lexeme, hit.value.kind, tokens0, errors0);
        next := index + |hit.value.lexeme|;
        AdvanceAccepts(st, line, n, index, hit, suggest);
      } else {
        errors := errors0 + [InvalidToken(n, line[index])];
        tokens := tokens0 + [UnknownToken(n, line[index])];
        next := index + 1;
        assert State(tokens, errors) == Fallback(st, n, line[index]);
        AdvanceFallsBack(st, line, n, index, suggest);
      }
    }

    /**
      What `lex_analyze` does with a match (analizar.py:161-192): classify
      it, count it, report its error and append its token record.
    */
    method AcceptToken(n: nat, w: string, kind: Kind, tokens0: seq<Token>, errors0: seq<Diagnostic>)
      returns (tokens: seq<Token>, errors: seq<Diagnostic>)
      modifies this
      ensures State(tokens, errors) == Accept(old(State(tokens0, errors0)), n, w, kind, suggest)
    {
      var tipo, error, suggestion := CategorizeToken(w, kind);
      var known := w in variables;
      CountToken(kind, known);
      errors := errors0;
      if error.Some? {
        errors := errors + [Expected(n, error.value.expected, error.value.found)];
      }
      tokens := tokens0 + [TokenFor(n, w, kind, tipo, known)];
    }
  }
}
