/**
  Token classification (`categorize_token`, `validar_suma` and the
  suggestion engine `find_closest_token` of `analizar.py`) and the registry of
  known variable names that classification grows.
*/
module Classify {
  import opened Wrappers
  import opened Text
  import opened Patterns

  function NoSuggestion(w: string): Option<string> { None }

  /**
    The suggestion engine, kept abstract: any function whose suggestions are
    drawn from the candidate list `valid_tokens + reserved_words`. The
    similarity measure behind `difflib.get_close_matches` is not modelled.
  */
  type Suggester = f: string -> Option<string> | forall w :: f(w).Some? ==> f(w).value in Vocabulary
    witness NoSuggestion

  /** The `tipo` of a token; `TipoText` gives the text `analizar.py` stores. */
  datatype Tipo =
    | InvalidIdentifier
    | Identifier
    | InvalidReservedWord
    | Capitalized(kind: Kind)   // `token_type.capitalize()`
    | Unknown

  function KindName(kind: Kind): string {
    match kind
    case PR => "PR"
    case ID => "ID"
    case NUM => "NUM"
    case STRING => "STRING"
    case SYMBOL => "SYMBOL"
  }

  function Lower(c: char): char {
    if 'A' <= c <= 'Z' then (c as int + 32) as char else c
  }

  function Upper(c: char): char {
    if 'a' <= c <= 'z' then (c as int - 32) as char else c
  }

  /** Python's `str.capitalize()` on ASCII text. */
  function Capitalize(s: string): (r: string)
    ensures |r| == |s|
    ensures |s| > 0 ==> r[0] == Upper(s[0])
    ensures forall k :: 1 <= k < |s| ==> r[k] == Lower(s[k])
  {
    if s == [] then [] else [Upper(s[0])] + seq(|s| - 1, k requires 0 <= k < |s| - 1 => Lower(s[k + 1]))
  }

  function TipoText(t: Tipo): string {
    match t
    case InvalidIdentifier => "Identificador inválido"
    case Identifier => "Identificador"
    case InvalidReservedWord => "Palabra reservada inválida"
    case Capitalized(k) => Capitalize(KindName(k))
    case Unknown => "Desconocido"
  }

  lemma CapitalizedTexts()
    ensures TipoText(Capitalized(PR)) == "Pr" && TipoText(Capitalized(ID)) == "Id"
    ensures TipoText(Capitalized(NUM)) == "Num" && TipoText(Capitalized(STRING)) == "String"
    ensures TipoText(Capitalized(SYMBOL)) == "Symbol"
  {
    CapitalizeIs("PR", "Pr");
    CapitalizeIs("ID", "Id");
    CapitalizeIs("NUM", "Num");
    CapitalizeIs("STRING", "String");
    CapitalizeIs("SYMBOL", "Symbol");
  }

  /** `Capitalize` is determined by its first character and the rest, one by one. */
  lemma CapitalizeIs(s: string, r: string)
    requires |r| == |s| > 0 && r[0] == Upper(s[0])
    requires forall k :: 1 <= k < |s| ==> r[k] == Lower(s[k])
    ensures Capitalize(s) == r
  {
  }

  /** The message "Se esperaba '<expected>' en lugar de '<found>'". */
  datatype Expectation = Expectation(expected: string, found: string)

  /** `validar_suma`: the one misspelling the analyzer knows, `sum` for `suma`. */
  function ValidarSuma(token: string): (r: Option<Expectation>)
    ensures r.Some? <==> token == "sum"
    ensures r.Some? ==> r.value == Expectation("suma", "sum")
  {
    if token == "sum" then Some(Expectation("suma", token)) else None
  }

  /**
    What `categorize_token` returns, together with the registry it leaves
    behind. `suggestion` is None where the source returns `''` or `None`.
  */
  datatype Categorization = Categorization(
    tipo: Tipo, error: Option<Expectation>, suggestion: Option<string>, registry: seq<string>)

  /**
    `categorize_token(token, token_type)` run against the registry `vars`.
    In the PR branch a missing suggestion is printed by the f-string as `None`.
  */
  function Categorize(vars: seq<string>, token: string, kind: Kind, suggest: Suggester): (r: Categorization)
    ensures r.tipo != Unknown
    ensures r.error.Some? <==> r.tipo in {InvalidIdentifier, InvalidReservedWord}
  {
    match ValidarSuma(token)
    case Some(e) => Categorization(InvalidIdentifier, Some(e), Some("suma"), vars)
    case None =>
      if kind == ID && !OneOf(token, ValidTokens) && !OneOf(token, ReservedWords) then
        match suggest(token)
        case Some(s) => Categorization(InvalidIdentifier, Some(Expectation(s, token)), Some(s), vars)
        case None =>
          var vars' := if token !in vars then vars + [token] else vars;
          Categorization(Identifier, None, None, vars')
      else if kind == PR && !OneOf(token, ReservedWords) then
        var s := suggest(token);
        var shown := match s case Some(x) => x case None => "None";
        Categorization(InvalidReservedWord, Some(Expectation(shown, token)), s, vars)
      else
        Categorization(Capitalized(kind), None, None, vars)
  }

  /** Names in `vars` are pairwise different. */
  predicate NoDuplicates(vars: seq<string>) {
    forall i, j :: 0 <= i < j < |vars| ==> vars[i] != vars[j]
  }

  /**
    The invariant of the registry `variables`: no duplicates, and every name
    is an identifier that is neither a valid token, a keyword nor `sum`, for
    which the suggestion engine has nothing to offer.
  */
  predicate RegistryInvariant(vars: seq<string>, suggest: Suggester) {
    NoDuplicates(vars) &&
    forall k :: 0 <= k < |vars| ==>
      IsIdentifierName(vars[k]) && vars[k] !in ValidTokens && vars[k] !in ReservedWords &&
      vars[k] != "sum" && suggest(vars[k]).None?
  }

  /**
    The registry only grows, and only by the token itself: exactly when the
    token is an ID, not `sum`, not a valid token or keyword, has no suggestion
    and is not registered yet.
  */
  lemma {:induction false} CategorizeRegisters(vars: seq<string>, token: string, kind: Kind, suggest: Suggester)
    ensures var r := Categorize(vars, token, kind, suggest);
      var added := kind == ID && token != "sum" && token !in ValidTokens && token !in ReservedWords &&
        suggest(token).None? && token !in vars;
      r.registry == if added then vars + [token] else vars
  {
    OneOfIff(token, ValidTokens);
    OneOfIff(token, ReservedWords);
  }

  /** Classification keeps the registry invariant when an ID token has identifier shape. */
  lemma {:induction false} CategorizeKeepsInvariant(vars: seq<string>, token: string, kind: Kind, suggest: Suggester)
    requires RegistryInvariant(vars, suggest)
    requires kind == ID ==> IsIdentifierName(token)
    ensures RegistryInvariant(Categorize(vars, token, kind, suggest).registry, suggest)
  {
    CategorizeRegisters(vars, token, kind, suggest);
    if Categorize(vars, token, kind, suggest).registry != vars {
      RegisterKeepsInvariant(vars, token, suggest);
    }
  }

  /** Appending a fresh identifier with no suggestion keeps the registry invariant. */
  lemma RegisterKeepsInvariant(vars: seq<string>, token: string, suggest: Suggester)
    requires RegistryInvariant(vars, suggest)
    requires IsIdentifierName(token) && token !in ValidTokens && token !in ReservedWords
    requires token != "sum" && suggest(token).None? && token !in vars
    ensures RegistryInvariant(vars + [token], suggest)
  {
    var r := vars + [token];
    forall i, j | 0 <= i < j < |r| ensures r[i] != r[j] {
      if j == |vars| {
        assert r[i] == vars[i];
      }
    }
  }

  /**
    The `sum` special case: whatever the token type and the registry,
    `sum` is an invalid identifier with the message about `suma`, the fixed
    suggestion `suma`, and the registry is left as it was.
  */
  lemma SumIsAlwaysFlagged(vars: seq<string>, kind: Kind, suggest: Suggester)
    ensures Categorize(vars, "sum", kind, suggest) ==
      Categorization(InvalidIdentifier, Some(Expectation("suma", "sum")), Some("suma"), vars)
  {
  }

  /**
    The final `return token_type.capitalize(), '', ''`: a keyword, a number,
    a string, a symbol, or an ID that is itself a valid token or keyword, is
    classified by its kind with no error and no suggestion, and the registry
    is left as it was.
  */
  lemma CategorizeOthers(vars: seq<string>, token: string, kind: Kind, suggest: Suggester)
    requires token != "sum"
    requires kind == ID ==> token in ValidTokens || token in ReservedWords
    requires kind == PR ==> token in ReservedWords
    ensures Categorize(vars, token, kind, suggest) == Categorization(Capitalized(kind), None, None, vars)
  {
    OneOfIff(token, ValidTokens);
    OneOfIff(token, ReservedWords);
  }

  /**
    An identifier outside the vocabulary for which the engine has a
    suggestion `s`: "Se esperaba 's' en lugar de 'token'", suggestion `s`,
    and the registry is left as it was.
  */
  lemma CategorizeSuggested(vars: seq<string>, token: string, suggest: Suggester)
    requires token != "sum" && token !in ValidTokens && token !in ReservedWords && suggest(token).Some?
    ensures Categorize(vars, token, ID, suggest) ==
      Categorization(InvalidIdentifier, Some(Expectation(suggest(token).value, token)), suggest(token), vars)
  {
    OneOfIff(token, ValidTokens);
    OneOfIff(token, ReservedWords);
  }

  /**
    A PR match outside `reserved_words`: an invalid keyword, with the
    suggestion (printed as `None` when there is none) in the message, and the
    registry is left as it was.
  */
  lemma CategorizeInvalidKeyword(vars: seq<string>, token: string, suggest: Suggester)
    requires token != "sum" && token !in ReservedWords
    ensures var shown := if suggest(token).Some? then suggest(token).value else "None";
      Categorize(vars, token, PR, suggest) ==
      Categorization(InvalidReservedWord, Some(Expectation(shown, token)), suggest(token), vars)
  {
    OneOfIff(token, ReservedWords);
  }

  /**
    Under the registry invariant an identifier ends up registered exactly when
    it is not `sum` and the suggestion engine has nothing for it, however the
    registry looked before: the name's status does not depend on history.
  */
  lemma {:induction false} RegisteredIff(vars: seq<string>, token: string, suggest: Suggester)
    requires RegistryInvariant(vars, suggest)
    requires IsIdentifierName(token) && token !in ValidTokens && token !in ReservedWords
    ensures var r := Categorize(vars, token, ID, suggest);
      (token in r.registry <==> token != "sum" && suggest(token).None?) &&
      r.tipo == (if token in r.registry then Identifier else InvalidIdentifier)
  {
    CategorizeRegisters(vars, token, ID, suggest);
    OneOfIff(token, ValidTokens);
    OneOfIff(token, ReservedWords);
    if token in vars {
      var k :| 0 <= k < |vars| && vars[k] == token;
    }
  }

  /** A suggestion, when there is one, is `suma` or a word of the candidate list. */
  lemma SuggestionFromVocabulary(vars: seq<string>, token: string, kind: Kind, suggest: Suggester)
    ensures var r := Categorize(vars, token, kind, suggest);
      r.suggestion.Some? ==> r.suggestion.value == "suma" || r.suggestion.value in Vocabulary
  {
  }
}
