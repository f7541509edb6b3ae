# A verified model of the `analizar.py` analysis engine

`analizar.py` is a lexical analyser and structural checker for a small teaching language. The language has the keywords `programa`, `int`, `read`, `printf` and `end`. For a source text the analyser produces three things:

- **tokens:** a token record for every lexeme, with six category flags and a `tipo`;
- **errors:** a list of line-numbered error messages;
- **counts:** six category counters.

Two pieces of process-wide state live between calls: the registry `variables` of known names, and the counter dictionary `token_count`.

This project models the engine in Dafny and proves properties of it. The Flask front end is not modelled.

## How the project is organised

- `wrappers.dfy`, `text.dfy`: `Option`, and the string operations the source uses:
  - `str.strip`, `str.split`, `in` on strings, and `splitlines`;
  - `splitlines` is modelled as a split on `'\n'` only (see "Left out").
- `diagnostics.dfy`: every error is a value (line, kind, payload), and `Render` rebuilds the source's f-string text. `PerLine` is the shared "for each numbered line, append what the line yields" loop of five checkers.
- `patterns.dfy`: the five token regexes as hand-written recognisers that return a match length.
  - Python's `\b` looks at the real character before `index`. The recognisers do the same.
  - `FirstPattern` / `FirstMatch` is the `for token_type, pattern in patterns.items()` loop: the first recogniser in the order PR, ID, NUM, STRING, SYMBOL wins.
- `classify.dfy`: `validar_suma` and `categorize_token`.
  - `find_closest_token` is a parameter `suggest` of type `Suggester`. That is any function whose suggestions come from `valid_tokens + reserved_words`.
  - `Categorize` returns the new registry, since the source mutates `variables` in place.
- `lexer.dfy`: the lexer loop as functions over a `LexState`, and the lemmas about it. `LexState` holds the registry, the counts, and the tokens and errors so far.
  - `Step` is one iteration of `while index < len(line)`.
  - `ScanFrom` is the rest of a line, `ScanLines` all lines, and `Lex` a whole text.
- `lexer_examples.dfy`: word boundaries at work. `12abc` lexes to five unknown characters. `a.b` lexes to ID, SYMBOL, ID.
- `braces.dfy`: `check_parentheses_and_braces`.
  - As an imperative method with the stack as a local sequence, proved equal to the fold `BraceErrors`.
  - Also proved: what the fold does on nested text and on `{(}`.
- `line_checkers.dfy`: the other five checkers, each as the function of one line that its loop body computes, with the regexes written out.
- `analyzer.dfy`: the stateful part. `class Analyzer` has the registry `variables` and the six counters as fields.
  - `Reset` is `reset_token_count`. `CategorizeToken` is `categorize_token` updating `variables`.
  - `LexAnalyze` is `lex_analyze`: nested `while` loops over lines and positions, followed by the six checkers in their fixed order.
  - Every method is proved equal to a specification function, and its contract then carries over what that function is proved to satisfy:
    - `LexAnalyze`, `LexLines`, `LexLine`, `LexStep`, `AdvanceAt` and `AcceptToken` against `Lex`, `ScanLines`, `ScanFrom`, `Step`, `Advance` and `Accept` of `lexer.dfy`;
    - `CountToken` against `Bump` and `Reset` against `NoCounts`;
    - `CategorizeToken` against `Classify.Categorize`;
    - `MatchAt` against `Patterns.FirstMatch`;
    - `CheckStructure` against `Analysis.StructuralErrors`.
- `sample.dfy`: the five-line example program `programa / int a, b; / read a; / printf("la suma es"); / end`, worked through all six checkers.

## Model

| member | source | states |
|---|---|---|
| Text.Lines | analizar.py:149 | `code.splitlines()` on `'\n'`: no line contains a newline |
| Text.LinesRoundTrip | analizar.py:149 | joining the lines back with a newline after each gives the text again, up to a final newline |
| Text.Find | analizar.py:82 | the first occurrence of a pattern from a position; none exists before it; when absent, it occurs nowhere |
| Text.ContainsIff | analizar.py:82 | `p in s` holds iff `p` occurs at some position of `s` |
| Text.FindChar | analizar.py:12 | the first position of a character from a position on, or none; the closing quote search of the STRING regex |
| Text.LastPieceSuffix | analizar.py:83 | `s.split(sep)[-1]` is a suffix of `s` without `sep` in it, and is all of `s` when `sep` does not occur |
| Text.Split | analizar.py:83-84 | `str.split(c)` gives at least one piece, and no piece contains `c` |
| Text.SplitLastPiece | analizar.py:83 | the last piece of a split is a suffix, preceded by the separator when there are several pieces |
| Text.JoinSplit | analizar.py:84 | joining the pieces of a split with the separator gives the string back |
| Text.SplitJoin | analizar.py:84 | splitting a join of separator-free pieces gives the pieces back |
| Text.SplitNoSeparator | analizar.py:84 | a string without the separator splits into itself alone |
| Text.LStripSpec | analizar.py:86 | left strip removes exactly the leading whitespace |
| Text.RStripSpec | analizar.py:86 | right strip removes exactly the trailing whitespace |
| Text.StripEmptyIff | analizar.py:86 | `not s.strip()` holds iff `s` is all whitespace |
| Text.StripTrimmed | analizar.py:122 | a text with no whitespace at either end strips to itself |
| Text.RStripChar | analizar.py:131 | `rstrip(';')` removes exactly the trailing run of `;` |
| Diagnostics.NatToStringRoundTrip | analizar.py:68 | the line number in a message is a non-empty digit string whose decimal value is the number |
| Diagnostics.PerLineOrdered | analizar.py:81-87 | a checker whose findings carry their own line number reports in line order, and only about lines 1..n |
| Patterns.OneOfIff | analizar.py:237 | the recursive membership test agrees with `in` on the word lists |
| Patterns.SymbolTokenShape | analizar.py:16 | every symbol in `valid_tokens` is one non-word symbol character |
| Patterns.ValidTokenShape | analizar.py:16 | a valid token is a keyword or a single non-word character |
| Patterns.WordRun | analizar.py:10 | the run of word characters stays in the line and ends at the end of the line or at a non-word character |
| Patterns.WordRunChars | analizar.py:10 | every character of the run is a word character, so the run is maximal |
| Patterns.DigitRun | analizar.py:11 | the maximal run of digits (`\d+`) |
| Patterns.SpaceRun | analizar.py:101 | the run of whitespace (`\s+`, `\s*`) stays in the line and ends at the end of the line or at a non-space character |
| Patterns.SpaceRunChars | analizar.py:101 | every character of the whitespace run is whitespace |
| Patterns.MatchKeyword | analizar.py:9 | the keyword alternation between two `\b` matches iff some keyword stands at `i` between boundaries, and gives that keyword's length |
| Patterns.ShorterRunHasNoBoundary | analizar.py:10-11 | there is no `\b` inside a word run, so a greedy run is the only match a trailing `\b` allows |
| Patterns.FirstPattern | analizar.py:157-160 | the index of the first recogniser in PR, ID, NUM, STRING, SYMBOL order that matches; all earlier ones fail; none when all fail |
| Patterns.KeywordsDistinguished | analizar.py:9 | two keywords that agree in their first and third character are equal |
| Patterns.KeywordIsReservedWord | analizar.py:8-14 | where a keyword stands between boundaries, PR wins and consumes exactly that keyword |
| Patterns.LeadingBoundary | analizar.py:10-11 | an ID or NUM only starts at the line start or after a non-word character |
| Patterns.RecognisedLexeme | analizar.py:8-14 | each recogniser's match has its kind's shape: a keyword, an identifier, digits, a quoted text without inner quotes, or one symbol character |
| Patterns.IdLexemeNotKeyword | analizar.py:8-10 | a lexeme that reaches the ID recogniser is never a keyword |
| Patterns.IdLexemeNotValidToken | analizar.py:8-16 | a lexeme taken as ID is never in `valid_tokens` |
| Patterns.MatchShaped | analizar.py:157-161 | the winning match has the shape of the winning kind |
| Patterns.FirstMatch | analizar.py:157-161 | the pattern loop's match: a non-empty slice of the line at `index`, of the winning kind, with exactly the recogniser's length |
| Classify.Capitalize | analizar.py:249 | `str.capitalize`: first character upper case, the rest lower case, same length |
| Classify.CapitalizedTexts | analizar.py:249 | the `tipo` texts are `Pr`, `Id`, `Num`, `String` and `Symbol` |
| Classify.ValidarSuma | analizar.py:50-53 | an expectation exists iff the token is `sum`, and it then expects `suma` |
| Classify.Categorize | analizar.py:232-249 | the `tipo` is never unknown, and an error is produced iff the `tipo` is one of the two invalid kinds |
| Classify.CategorizeRegisters | analizar.py:237-245 | the registry gains the token exactly when it is an ID, not `sum`, not a valid token or keyword, has no suggestion and is new; otherwise it is unchanged |
| Classify.CategorizeKeepsInvariant | analizar.py:237-245 | the registry stays duplicate-free and holds only suggestion-free identifiers outside the vocabulary and other than `sum` |
| Classify.RegisterKeepsInvariant | analizar.py:243-244 | appending a fresh, suggestion-free identifier outside the vocabulary and other than `sum` keeps the registry invariant |
| Classify.CategorizeOthers | analizar.py:236-249 | a keyword in `reserved_words`, a number, a string, a symbol, or an ID that is itself a valid token or keyword (all other than `sum`) is classified as `token_type.capitalize()` with no error, no suggestion and the registry unchanged |
| Classify.CategorizeSuggested | analizar.py:236-240 | an ID outside both word lists with a suggestion `s` is an invalid identifier, with the message expecting `s` instead of the token and suggestion `s`; the registry is unchanged |
| Classify.CategorizeInvalidKeyword | analizar.py:246-248 | a PR match outside `reserved_words` is an invalid keyword whose message shows the suggestion, or `None` when there is none; the suggestion is returned and the registry is unchanged |
| Classify.SumIsAlwaysFlagged | analizar.py:233-235 | whatever the kind and registry, `sum` is an invalid identifier expecting `suma`, suggests `suma`, and leaves the registry alone |
| Classify.RegisteredIff | analizar.py:237-245 | an identifier outside the vocabulary is registered iff it is not `sum` and has no suggestion; its `tipo` is Identifier exactly then |
| Classify.SuggestionFromVocabulary | analizar.py:232-248 | any suggestion is `suma` or a member of `valid_tokens + reserved_words` |
| Lexer.Step | analizar.py:152-209 | every iteration moves `index` forward and stays in the line; whitespace changes nothing else |
| Lexer.StepExtends | analizar.py:152-209 | an iteration at a non-space character appends exactly one token holding the consumed text, and at most one error about this line |
| Lexer.Advance | analizar.py:160-209 | after the pattern loop `index` moves forward and stays in the line |
| Lexer.AdvanceExtends | analizar.py:160-209 | after the pattern loop, exactly one token for the consumed text and at most one error about this line |
| Lexer.UnknownFallback | analizar.py:195-209 | a non-space character where no pattern matches gives one `Desconocido` token of that character with no flag, one invalid-token error, and unchanged counters and registry |
| Lexer.AcceptCounts | analizar.py:162-192 | an accepted match raises exactly one counter by one, the one whose flag the new token carries; the token has exactly one flag; the registry keeps its invariant and only grows |
| Lexer.TokenForCounts | analizar.py:165-190 | the flags of a token record and the counter that is raised always agree |
| Lexer.NotRegistered | analizar.py:187 | keywords and lexemes that do not start like an identifier are never in the registry, so only IDs get the `variable` flag |
| Lexer.AcceptVariableIff | analizar.py:167-187 | an ID token gets the `variable` flag iff it is not `sum` and has no suggestion, counted after registration (so even its first occurrence); otherwise it gets `identificador` |
| Lexer.SumInTheLexer | analizar.py:161-192 | `sum` in the lexer: one invalid-identifier token, counted as an identifier (or a variable if already registered), one error expecting `suma`, registry unchanged |
| Lexer.AcceptOthers | analizar.py:161-192 | a matched keyword, number, string or symbol (or an ID that is a vocabulary word) other than `sum` adds one token tagged with its capitalized kind, bumps its kind's counter, reports no error and leaves the registry unchanged |
| Lexer.AcceptIgnoresRegistry | analizar.py:161-192 | given the registry invariant, the token and error of an accepted match do not depend on which names are registered |
| Lexer.ScanFromTiles | analizar.py:151-209 | the lexemes of a line's tokens, in order with whitespace between them, make up the line exactly |
| Lexer.ScanFromErrors | analizar.py:180-197 | a line's scan keeps earlier errors and appends only errors about that line |
| Lexer.ScanFromRegistry | analizar.py:151-209 | a line's scan keeps the registry invariant, and the registry only grows |
| Lexer.ScanFromCounts | analizar.py:165-178 | a line's scan keeps "counters = base + one per token flag, each token with one flag or none if unknown" |
| Lexer.ScanFromIgnoresRegistry | analizar.py:151-209 | a line's tokens and errors do not depend on the registry, given its invariant |
| Lexer.ScanLinesTiles | analizar.py:150-209 | tokens have non-decreasing line numbers within 1..n, and each line is tiled by its own tokens' lexemes |
| Lexer.ScanLinesErrors | analizar.py:150-209 | lexical errors come in line order and name only existing lines |
| Lexer.ScanLinesRegistry | analizar.py:150-209 | over all lines, the registry keeps its invariant and only grows |
| Lexer.ScanLinesCounts | analizar.py:150-209 | over all lines, the counters stay base plus the tally of the token flags |
| Lexer.ScanLinesIgnoresRegistry | analizar.py:150-209 | over all lines, tokens and errors do not depend on the registry, given its invariant |
| Lexer.LexCounts | analizar.py:147-209 | after a whole text, counters = old counters + tally of new tokens, each token has one flag (none if unknown), and the registry keeps its invariant and grows |
| Lexer.TallyAppend | analizar.py:165-178 | the flag tally of concatenated token lists is the sum of the tallies |
| Lexer.TilesBound | analizar.py:151-209 | a line yields no more tokens than it has characters |
| LexerExamples.InsideWordNoMatch | analizar.py:8-14 | between two word characters no recogniser matches |
| LexerExamples.WordWithoutMatch | analizar.py:8-14 | a word with no match at its start has no match anywhere |
| LexerExamples.UnknownStretch | analizar.py:195-209 | non-space characters with no match give one unknown token and one invalid-token error each, in order, and nothing else changes |
| LexerExamples.GluedNumber | analizar.py:11 | at the start of `12abc`, NUM fails because there is no `\b` after `12` |
| LexerExamples.DigitsGluedToLetters | analizar.py:152-209 | `12abc` gives five unknown tokens and five invalid-token errors, with counters and registry unchanged |
| LexerExamples.NoKeywordAt | analizar.py:9 | PR fails at a character no keyword starts with |
| LexerExamples.IdentifierAt | analizar.py:8-14 | at a word start behind a non-word character, where PR fails, the match is the whole word as ID |
| LexerExamples.SymbolAt | analizar.py:8-14 | a symbol character is matched as a one-character SYMBOL |
| LexerExamples.DotMatchesA | analizar.py:10-13 | at the start of `a.b` the pattern loop finds the ID `a` |
| LexerExamples.DotMatchesDot | analizar.py:10-13 | in the middle of `a.b` the pattern loop finds the SYMBOL `.` |
| LexerExamples.DotMatchesB | analizar.py:10-13 | at the end of `a.b` the pattern loop finds the ID `b` |
| LexerExamples.DotSeparatesWords | analizar.py:152-194 | lexing `a.b` accepts `a` as ID, `.` as SYMBOL, `b` as ID, in that order |
| Braces.LinePositions | analizar.py:63 | the characters of a line, in order, each tagged with the line number |
| Braces.Unclosed | analizar.py:72-74 | leftover openers are reported from the top of the stack down, each at the line it was pushed |
| Braces.CheckParenthesesAndBraces | analizar.py:56-76 | the imperative checker with its stack returns exactly the fold `BraceErrors` |
| Braces.ScanLine | analizar.py:63-70 | the inner loop over one line's characters is the fold over that line's positions |
| Braces.ScanKeepsOpeners | analizar.py:64-65 | the stack only ever holds openers, with the positions where they occurred |
| Braces.MismatchKeepsStack | analizar.py:67-68 | an unmatched or mismatched closer is reported with its own character, and the stack is not popped |
| Braces.MatchPops | analizar.py:69-70 | a matching closer pops its opener and reports nothing |
| Braces.BraceScanAppend | analizar.py:62-63 | the scan of concatenated positions is the scan of the second part from the state after the first: one stack across all lines |
| Braces.NoBracketsKeepState | analizar.py:63-70 | text without brackets changes neither stack nor errors |
| Braces.PushPop | analizar.py:64-70 | an opener followed by its closer leaves the state as it was |
| Braces.NestedKeepsState | analizar.py:63-70 | properly nested bracket text, with any other characters, leaves the state as it was |
| Braces.WrapCloses | analizar.py:64-70 | an opener whose inner text leaves it on top of the stack is popped by its closer, so the pair changes nothing |
| Braces.PositionsChars | analizar.py:62-63 | the positions of all lines carry exactly the characters of the lines, in order |
| Braces.NestedTextIsClean | analizar.py:56-76 | a text whose lines lay out a properly nested structure gives no bracket errors |
| Braces.ScanOpenParenInsideBrace | analizar.py:62-70 | for `{(}` the loop leaves `{`,`(` on the stack and one missing-opening error for `}` |
| Braces.OpenParenInsideBrace | analizar.py:56-76 | `{(}` gives exactly: missing opening of `}`, missing closing of `(`, missing closing of `{`, all on line 1 |
| LineCheckers.CommaGaps | analizar.py:85-87 | every report is the missing-comma message, and there are fewer reports than segments |
| LineCheckers.CommaGapsCount | analizar.py:85-87 | one report per gap: as many reports as positions `i` with a non-blank segment `i` and a blank segment `i + 1` |
| LineCheckers.TwoCommaGaps | analizar.py:79-88 | `int a, , b, ;` has two gaps and gets exactly two comma reports |
| LineCheckers.CommaGapsIff | analizar.py:85-87 | no error iff no non-blank segment is followed by a blank one |
| LineCheckers.MissingCommasIff | analizar.py:79-88 | a line is reported iff it contains `int` and the text after the last `int`, up to the first `;`, has a non-blank comma segment followed by a blank one; all reports name the line |
| LineCheckers.MentionsAnyIff | analizar.py:95 | `any(keyword in line ...)` holds iff some keyword occurs in the line as a substring |
| LineCheckers.OperatorMatchAt | analizar.py:101 | a match of `\b ID \s+ ID \b` anchored at a position is non-empty and inside the line |
| LineCheckers.SearchOperator | analizar.py:101 | `re.search` gives the leftmost position where the pattern matches; no earlier position matches; none when no position matches |
| LineCheckers.OperatorMatchShape | analizar.py:101 | the matched text is an identifier, a non-empty whitespace run and another identifier |
| LineCheckers.OperatorShapeMatches | analizar.py:101 | conversely, an identifier, non-empty whitespace and an identifier standing between two `\b` positions are exactly the match anchored at the first of them |
| LineCheckers.OperatorShapeReported | analizar.py:91-104 | a line with no keyword substring and no quote that holds such a text between boundaries gets exactly one report |
| LineCheckers.MissingOperatorsReport | analizar.py:91-104 | at most one report per line, only for lines with no keyword substring and no quote, naming two identifiers with whitespace between; such a line is reported iff some position matches |
| LineCheckers.MissingSemicolonsIff | analizar.py:107-116 | a line is reported iff it is non-blank and its stripped text does not start with `}` and ends in none of `;`, `{`, `}`; at most one report |
| LineCheckers.SemicolonExamples | analizar.py:107-116 | `int a, b` is reported and `int a, b;` is not |
| LineCheckers.DeclaredNames | analizar.py:131-132 | one name per comma piece of `stripped[3:].strip().rstrip(';')` |
| LineCheckers.BadNames | analizar.py:133-135 | one bad-variable error per name that is not an identifier; none iff all are identifiers |
| LineCheckers.DeclarationMatchIff | analizar.py:127 | the declaration regex matches iff the stripped line is `int`, whitespace, a name, any number of (whitespace, `,`, whitespace, name), whitespace, `;`, then any text |
| LineCheckers.DeclarationPrefix | analizar.py:127 | `re.match` looks only at a prefix: a matching line still matches with any text appended |
| LineCheckers.VariableDeclarationsClean | analizar.py:119-136 | no error iff the stripped line does not start with `int`, or it matches the declaration prefix and every declared name is an identifier; all reports name the line |
| LineCheckers.GoodDeclarationMatches | analizar.py:127 | `int a, b;` matches the declaration regex |
| LineCheckers.DeclaredNamesOfGood | analizar.py:131-132 | the names of `int a, b;` are `a` and `b` |
| LineCheckers.GoodDeclaration | analizar.py:119-136 | `int a, b;` yields no declaration error |
| LineCheckers.MissingCommaDeclaration | analizar.py:119-128 | `int a b;` yields exactly one malformed-declaration error |
| LineCheckers.CallMatchIff | analizar.py:143 | the stripped line fully matches iff it is `(`, word characters, `)`, whitespace, `;` |
| LineCheckers.CallHasNoQuote | analizar.py:143 | no text matched by the call pattern contains a quote |
| LineCheckers.QuotedTextIsNoCall | analizar.py:142-144 | a line with a quote is never reported, whatever the comment says |
| LineCheckers.CheckersAreLineLocal | analizar.py:79-145 | each of the five line checkers reports only about the line it is given |
| Analysis.StructuralErrorsByChecker | analizar.py:211-227 | structural errors are the bracket errors followed by the five line checkers' runs in fixed order, each run in line order and about existing lines |
| Analysis.CheckStructure | analizar.py:211-227 | running the six checkers one after the other yields the structural errors |
| Analysis.MatchAt | analizar.py:157-160 | the imperative pattern loop finds the first match in PR, ID, NUM, STRING, SYMBOL order |
| Analysis.RepeatedAnalysis | analizar.py:147-209 | analysing the same text twice without a reset gives the same tokens and errors, while the counters grow by the tally twice |
| Analysis.Analyzer.constructor | analizar.py:20-30 | the process starts with no registered names and all counters at zero |
| Analysis.Analyzer.Reset | analizar.py:33-42 | `reset_token_count` zeroes the six counters and leaves `variables` as it was |
| Analysis.Analyzer.CategorizeToken | analizar.py:232-249 | the method's results and its update of `variables` are those of `Categorize` on the old registry; counters untouched; the registry invariant is kept |
| Analysis.Analyzer.CountToken | analizar.py:165-178 | exactly the counter chosen by the kind, and by registration for an ID, goes up by one |
| Analysis.Analyzer.AcceptToken | analizar.py:161-192 | classify, count, report and append one token, exactly as `Accept` |
| Analysis.Analyzer.AdvanceAt | analizar.py:160-209 | accept the match or fall back, and move `index`, exactly as `Lexer.Advance` |
| Analysis.Analyzer.LexStep | analizar.py:152-209 | one iteration of the while loop, exactly as `Step` |
| Analysis.Analyzer.LexLine | analizar.py:151-209 | the while loop over one line, exactly as `ScanFrom` |
| Analysis.Analyzer.LexLines | analizar.py:150-209 | the loop over all lines, exactly as `ScanLines` |
| Analysis.Analyzer.LexAnalyze | analizar.py:147-229 | tokens, the new registry and counters are those of `Lex` from the old state; errors are the lexical errors followed by the structural errors; counters = old + tally of tokens; registry invariant kept and registry grows |
| Sample.ProgramLinesSplit | analizar.py:149 | the example program splits into its five lines |
| Sample.LineOne | analizar.py:79-145 | `programa` is reported only by the semicolon checker |
| Sample.LineTwo | analizar.py:79-145 | `int a, b;` is reported by none of the five line checkers |
| Sample.LineThree | analizar.py:79-145 | `read a;` is reported by none of the five line checkers |
| Sample.LineFour | analizar.py:79-145 | `printf("la suma es");` is reported by none of the five line checkers |
| Sample.LineFive | analizar.py:79-145 | `end` is reported only by the semicolon checker |
| Sample.SampleBraces | analizar.py:56-76 | the example program's one pair of parentheses gives no bracket error |
| Sample.SampleStructuralErrors | analizar.py:211-227 | the example program's structural errors are exactly missing semicolons on lines 1 and 5 |
| Sample.SampleLineChecks | analizar.py:211-227 | on the example program's five lines the comma, operator, declaration and call checkers report nothing and the semicolon checker reports lines 1 and 5 |

Lemmas that only unfold a definition one step for other proofs have no row. Among them are `Lexer.AdvanceAccepts`, `Lexer.AdvanceFallsBack`, `LexerExamples.StepTakes`, `LexerExamples.ScanFromStep`, `Patterns.FirstMatchFrom` and `Patterns.NoMatchAfterAll`.

## Left out

- The Flask application (routes, templates, redirects, form input). It is presentation and I/O. Its calls to `reset_token_count` and `lex_analyze` are the `Reset` and `LexAnalyze` methods.
- The similarity measure of `difflib.get_close_matches` in `find_closest_token`. It is a foreign library. Every function whose suggestions lie in `valid_tokens + reserved_words` is allowed, and every lemma holds for all of them.
- Python's general `re` engine. Only the specific patterns are written out by hand; ID and NUM use greedy runs, which `ShorterRunHasNoBoundary` justifies.
- Unicode. Word characters are ASCII `[A-Za-z0-9_]`. Whitespace is the ASCII set that `str.isspace` and `\s` accept (space, 9-13, 28-31).
- `str.splitlines` is modelled as splitting on `'\n'` only, with no final empty line. Python also splits on `\r`, `\x0b`, `\x0c`, `\x1c`-`\x1e`, `\x85`, `\u2028` and `\u2029`.
- Messages are kept as structured values. `Diagnostics.Render` rebuilds the f-string text, and `NatToStringRoundTrip` proves the number rendering. Each message is proved at the value level, not as the rendered text.
- The `'PR'` branch of `categorize_token` with a token outside `reserved_words` (analizar.py:246-248) cannot be reached from the lexer. `Patterns.MatchShaped` and `RecognisedLexeme` show that every PR lexeme is one of the reserved words. `CategorizeInvalidKeyword` still states what the function returns there, and no lemma ties that branch to the lexer.
- RepeatedAnalysis: does not state that the second run leaves the registry unchanged, only that its tokens and errors equal the first run's. The counters it states for the second run are exact.
- Concurrency: `app.run(debug=True)` (analizar.py:268) serves requests on threads, which share `variables` and `token_count`. Concurrent requests are not modelled: the shared state is one `Analyzer` object, and the model assumes that calls come one at a time.
- Aliasing of the counters: `lex_analyze` returns the global `token_count` dictionary itself (analizar.py:229), so a later `lex_analyze` with no reset in between increments that same dictionary (analizar.py:166-178) and changes what the earlier caller holds. `reset_token_count` does not: it binds the global name to a new dictionary (analizar.py:34-35) and leaves the earlier one as it was. `LexAnalyze` returns the counters as a value, a snapshot taken when it returns; the alias is not modelled.

## Where the code and its description disagree

The model follows the code in each case.

- `reset_token_count` only zeroes the counters. `variables` is never cleared, so names stay registered across analyses.
- A newly registered name is flagged as `Variable` at its first occurrence already (`Lexer.AcceptVariableIff`). Registration happens in `categorize_token` before the membership test of line 169. Its `tipo` stays `Identificador`.
- For `{(}` the code reports three errors: missing opening `}`, then missing closing `(`, then missing closing `{` (`Braces.OpenParenInsideBrace`).
- The five-line example program is not free of structural errors. The semicolon checker reports `programa` (line 1) and `end` (line 5), as `Sample.SampleStructuralErrors` proves.
- Analysing the same text twice after one reset gives the same tokens and errors, but the counters are not identical. They accumulate (`Analysis.RepeatedAnalysis`).
- A STRING lexeme may contain spaces. So the lexemes do not add up to the non-space characters of a line; instead they tile the line with whitespace between them (`Lexer.ScanLinesTiles`).
- The call checker never matches text with a quote in it (`LineCheckers.QuotedTextIsNoCall`), although the comment at analizar.py:142 names a quoted example.
- The comma checker selects lines where `int` occurs anywhere, `printf` included.
