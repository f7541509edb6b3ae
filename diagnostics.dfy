/**
  Diagnostics: every error the analyzer reports, kept as a line number, a kind
  and the payload that the message text carries. `Render` gives the exact
  text `analizar.py` builds with its f-strings, "Línea <n>: <message>".
*/
module Diagnostics {

  datatype Diagnostic =
    | Expected(line: nat, expected: string, found: string)  // "Se esperaba 'e' en lugar de 'f'"
    | InvalidToken(line: nat, ch: char)                     // an unrecognised character
    | MissingOpening(line: nat, ch: char)                   // a closer with no matching opener
    | MissingClosing(line: nat, ch: char)                   // an opener never closed
    | MissingComma(line: nat)
    | MissingOperator(line: nat, text: string)              // the two names and the gap between them
    | MissingSemicolon(line: nat)
    | MalformedDeclaration(line: nat)
    | BadVariable(line: nat)
    | MalformedCall(line: nat)

  /** The decimal digits of `n`, as Python's `str(n)` writes them. */
  function NatToString(n: nat): (s: string)
    decreases n
  {
    if n < 10 then [DigitChar(n)] else NatToString(n / 10) + [DigitChar(n % 10)]
  }

  function DigitChar(d: nat): char
    requires d < 10
  {
    (48 + d) as char
  }

  /** The value of a string of decimal digits. */
  function DecimalValue(s: string): nat
    requires forall k :: 0 <= k < |s| ==> '0' <= s[k] <= '9'
  {
    if s == [] then 0 else 10 * DecimalValue(s[..|s| - 1]) + ((s[|s| - 1] as int) - 48)
  }

  /** The rendered number is a non-empty string of digits that reads back as `n`. */
  lemma {:induction false} NatToStringRoundTrip(n: nat)
    ensures var s := NatToString(n);
      s != [] && (forall k :: 0 <= k < |s| ==> '0' <= s[k] <= '9') && DecimalValue(s) == n
    decreases n
  {
    if n >= 10 {
      NatToStringRoundTrip(n / 10);
      var s := NatToString(n);
      assert s[..|s| - 1] == NatToString(n / 10);
    }
  }

  function Quoted(s: string): string {
    "'" + s + "'"
  }

  function Message(d: Diagnostic): string {
    match d
    case Expected(_, e, f) => "Se esperaba " + Quoted(e) + " en lugar de " + Quoted(f)
    case InvalidToken(_, c) => "Token inválido " + Quoted([c])
    case MissingOpening(_, c) => "Falta apertura de " + Quoted([c])
    case MissingClosing(_, c) => "Falta cierre de " + Quoted([c])
    case MissingComma(_) => "Falta una coma entre las variables."
    case MissingOperator(_, t) => "Falta un operador entre " + Quoted(t) + "."
    case MissingSemicolon(_) => "Falta un punto y coma al final de la línea."
    case MalformedDeclaration(_) => "Declaración de variables mal estructurada o falta de punto y coma."
    case BadVariable(_) => "Variable mal declarada o falta de coma en la declaración de variables."
    case MalformedCall(_) => "Llamada a función mal estructurada o cadena fuera de una función."
  }

  /** The line-prefixed text shown to the user. */
  function Render(d: Diagnostic): string {
    "Línea " + NatToString(d.line) + ": " + Message(d)
  }

  /** Diagnostics whose line numbers never decrease. */
  predicate InLineOrder(ds: seq<Diagnostic>) {
    forall i, j :: 0 <= i < j < |ds| ==> ds[i].line <= ds[j].line
  }

  /** Every diagnostic of `ds` is about line `n`. */
  predicate AllOnLine(ds: seq<Diagnostic>, n: nat) {
    forall k :: 0 <= k < |ds| ==> ds[k].line == n
  }

  /** A per-line checker whose findings always carry the number of the line it was given. */
  ghost predicate LineLocal(check: (string, nat) -> seq<Diagnostic>) {
    forall line, n :: AllOnLine(check(line, n), n)
  }

  /**
    The shape shared by five checkers of `analizar.py`: visit the lines in
    order, numbering them from 1, and append what each line yields.
  */
  function PerLine(lines: seq<string>, check: (string, nat) -> seq<Diagnostic>): seq<Diagnostic> {
    if lines == [] then []
    else PerLine(lines[..|lines| - 1], check) + check(lines[|lines| - 1], |lines|)
  }

  /** A line-local checker run over all lines reports in line order and only about existing lines. */
  lemma {:induction false} PerLineOrdered(lines: seq<string>, check: (string, nat) -> seq<Diagnostic>)
    requires LineLocal(check)
    ensures var ds := PerLine(lines, check);
      InLineOrder(ds) && forall k :: 0 <= k < |ds| ==> 1 <= ds[k].line <= |lines|
  {
    if lines != [] {
      var init := lines[..|lines| - 1];
      PerLineOrdered(init, check);
      var front, back := PerLine(init, check), check(lines[|lines| - 1], |lines|);
      assert AllOnLine(back, |lines|);
      var ds := front + back;
      forall i, j | 0 <= i < j < |ds|
        ensures ds[i].line <= ds[j].line
      {
        if j >= |front| {
          assert ds[j] == back[j - |front|];
          if i >= |front| {
            assert ds[i] == back[i - |front|];
          }
        }
      }
      forall k | 0 <= k < |ds|
        ensures 1 <= ds[k].line <= |lines|
      {
        if k >= |front| {
          assert ds[k] == back[k - |front|];
        }
      }
    }
  }
}
