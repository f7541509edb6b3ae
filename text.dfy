/**
  Character classes and the few string operations of Python that the analyzer
  relies on: `str.isspace`, `str.strip`, `str.rstrip(c)`, `str.split(c)`,
  `str.split(word)[-1]`, the substring test `word in s`, `startswith`,
  `endswith` and `str.splitlines`.

  Characters are taken to be ASCII for the purpose of classification: a word
  character (regex `\w`) is a letter, a digit or `_`, a digit (`\d`) is `0`..`9`,
  and whitespace (`\s`, `str.isspace`) is the space and the control characters
  9..13 and 28..31, which are exactly the ASCII characters Python calls
  whitespace. Lines are separated by `'\n'` only.
*/
module Text {
  import opened Wrappers

  predicate IsSpace(c: char) {
    c == ' ' || (9 <= c as int <= 13) || (28 <= c as int <= 31)
  }

  predicate IsDigit(c: char) { '0' <= c <= '9' }

  /** `[a-zA-Z_]`: the characters an identifier may start with. */
  predicate IsIdStart(c: char) { 'a' <= c <= 'z' || 'A' <= c <= 'Z' || c == '_' }

  /** `[a-zA-Z0-9_]`, which under the ASCII reading is also `\w`. */
  predicate IsWordChar(c: char) { IsIdStart(c) || IsDigit(c) }

  /** The whole of `s` matches `[a-zA-Z_][a-zA-Z0-9_]*`. */
  predicate IsIdentifierName(s: string) {
    |s| > 0 && IsIdStart(s[0]) && forall k :: 1 <= k < |s| ==> IsWordChar(s[k])
  }

  predicate AllSpace(s: string) {
    forall k :: 0 <= k < |s| ==> IsSpace(s[k])
  }

  predicate StartsWith(s: string, p: string) {
    |p| <= |s| && s[..|p|] == p
  }

  predicate EndsWith(s: string, p: string) {
    |p| <= |s| && s[|s| - |p|..] == p
  }

  /** `p` occurs in `s` starting at index `k`. */
  predicate OccursAt(s: string, p: string, k: nat) {
    k + |p| <= |s| && s[k..k + |p|] == p
  }

  /** The first occurrence of `p` in `s` at or after `from` (left-to-right search). */
  function Find(s: string, p: string, from: nat): (r: Option<nat>)
    requires from <= |s|
    ensures r.Some? ==> from <= r.value && OccursAt(s, p, r.value)
    ensures r.Some? ==> forall k :: from <= k < r.value ==> !OccursAt(s, p, k)
    ensures r.None? ==> forall k :: from <= k <= |s| ==> !OccursAt(s, p, k)
    decreases |s| - from
  {
    if from + |p| > |s| then None
    else if s[from..from + |p|] == p then Some(from)
    else if from == |s| then None
    else Find(s, p, from + 1)
  }

  /** The index of the first `c` in `s` at or after `from`. */
  function FindChar(s: string, c: char, from: nat): (r: Option<nat>)
    requires from <= |s|
    ensures r.Some? ==> from <= r.value < |s| && s[r.value] == c
    ensures r.Some? ==> forall k :: from <= k < r.value ==> s[k] != c
    ensures r.None? ==> forall k :: from <= k < |s| ==> s[k] != c
    decreases |s| - from
  {
    if from == |s| then None
    else if s[from] == c then Some(from)
    else FindChar(s, c, from + 1)
  }

  /** Python's `p in s`. */
  predicate Contains(s: string, p: string) {
    Find(s, p, 0).Some?
  }

  lemma ContainsIff(s: string, p: string)
    ensures Contains(s, p) <==> exists k :: 0 <= k <= |s| && OccursAt(s, p, k)
  {
  }

  /** A text without the first character of `p` does not contain `p`. */
  lemma MissingFirstChar(s: string, p: string)
    requires |p| > 0 && p[0] !in s
    ensures !Contains(s, p)
  {
    ContainsIff(s, p);
    forall k | 0 <= k <= |s| ensures !OccursAt(s, p, k) {
      if k + |p| <= |s| {
        assert s[k..k + |p|][0] == s[k];
      }
    }
  }

  /**
    The last element of Python's `s.split(sep)`: the text after the last
    occurrence of `sep` found by a left-to-right scan, or all of `s`.
  */
  function LastPiece(s: string, sep: string): string
    requires |sep| > 0
    decreases |s|
  {
    match Find(s, sep, 0)
    case None => s
    case Some(i) => LastPiece(s[i + |sep|..], sep)
  }

  /** What `LastPiece` computes: a suffix of the text that holds no separator. */
  lemma {:induction false} LastPieceSuffix(s: string, sep: string)
    requires |sep| > 0
    ensures var r := LastPiece(s, sep);
      |r| <= |s| && r == s[|s| - |r|..] && !Contains(r, sep) &&
      (!Contains(s, sep) ==> r == s)
    decreases |s|
  {
    match Find(s, sep, 0)
    case None =>
      assert !Contains(s, sep);
      assert LastPiece(s, sep) == s;
    case Some(i) =>
      var t := s[i + |sep|..];
      LastPieceSuffix(t, sep);
      var r := LastPiece(t, sep);
      assert LastPiece(s, sep) == r;
      assert t == s[|s| - |t|..];
      SuffixOfSuffix(s, t, r);
      assert Contains(s, sep);
  }

  lemma SuffixOfSuffix(s: string, t: string, r: string)
    requires |t| <= |s| && t == s[|s| - |t|..]
    requires |r| <= |t| && r == t[|t| - |r|..]
    ensures r == s[|s| - |r|..]
  {
  }

  /** `str.lstrip()`. */
  function LStrip(s: string): string
    decreases |s|
  {
    if s != [] && IsSpace(s[0]) then LStrip(s[1..]) else s
  }

  /** `str.rstrip()`. */
  function RStrip(s: string): string
    decreases |s|
  {
    if s != [] && IsSpace(s[|s| - 1]) then RStrip(s[..|s| - 1]) else s
  }

  /** `str.strip()`. */
  function Strip(s: string): string {
    RStrip(LStrip(s))
  }

  /** `lstrip` removes exactly the leading whitespace: what is left is a suffix that starts with none. */
  lemma {:induction false} LStripSpec(s: string)
    ensures var r := LStrip(s);
      |r| <= |s| && r == s[|s| - |r|..] && AllSpace(s[..|s| - |r|]) && (r == [] || !IsSpace(r[0]))
    decreases |s|
  {
    if s != [] && IsSpace(s[0]) {
      LStripSpec(s[1..]);
      var r := LStrip(s);
      assert s[..|s| - |r|] == [s[0]] + s[1..][..|s| - 1 - |r|];
    }
  }

  /** `rstrip` removes exactly the trailing whitespace: what is left is a prefix that ends with none. */
  lemma {:induction false} RStripSpec(s: string)
    ensures var r := RStrip(s);
      |r| <= |s| && r == s[..|r|] && AllSpace(s[|r|..]) && (r == [] || !IsSpace(r[|r| - 1]))
    decreases |s|
  {
    if s != [] && IsSpace(s[|s| - 1]) {
      RStripSpec(s[..|s| - 1]);
      var r := RStrip(s);
      assert s[|r|..] == s[..|s| - 1][|r|..] + [s[|s| - 1]];
    }
  }

  /** A text that neither starts nor ends with whitespace is its own strip. */
  lemma StripTrimmed(s: string)
    requires s != [] && !IsSpace(s[0]) && !IsSpace(s[|s| - 1])
    ensures Strip(s) == s
  {
  }

  lemma {:induction false} LStripAllSpace(s: string)
    requires AllSpace(s)
    ensures LStrip(s) == []
    decreases |s|
  {
    if s != [] {
      LStripAllSpace(s[1..]);
    }
  }

  /** The stripped text is empty exactly when the text is all whitespace. */
  lemma StripEmptyIff(s: string)
    ensures Strip(s) == [] <==> AllSpace(s)
  {
    var l := LStrip(s);
    LStripSpec(s);
    RStripSpec(l);
    if AllSpace(s) {
      LStripAllSpace(s);
    }
    if Strip(s) == [] {
      assert l == l[|RStrip(l)|..];
      assert l == [];
      forall k | 0 <= k < |s|
        ensures IsSpace(s[k])
      {
        assert s[k] == s[..|s| - |l|][k];
      }
    }
  }

  /** `str.rstrip(c)` for one character `c`. */
  function RStripChar(s: string, c: char): (r: string)
    ensures |r| <= |s| && r == s[..|r|]
    ensures forall k :: |r| <= k < |s| ==> s[k] == c
    ensures r == [] || r[|r| - 1] != c
    decreases |s|
  {
    if s != [] && s[|s| - 1] == c then RStripChar(s[..|s| - 1], c) else s
  }

  /** Python's `s.split(c)` for a one-character separator `c`. */
  function Split(s: string, c: char): (parts: seq<string>)
    ensures |parts| >= 1
    ensures forall k :: 0 <= k < |parts| ==> c !in parts[k]
    decreases |s|
  {
    if s == [] then [""]
    else
      var rest := Split(s[1..], c);
      if s[0] == c then [""] + rest
      else [[s[0]] + rest[0]] + rest[1..]
  }

  /**
    A single piece is the whole text, and the last piece is the text after
    the last separator.
  */
  lemma {:induction false} SplitLastPiece(s: string, c: char)
    ensures var parts := Split(s, c); var last := parts[|parts| - 1];
      (|parts| == 1 ==> parts[0] == s) &&
      |last| <= |s| && last == s[|s| - |last|..] &&
      (|parts| > 1 ==> |last| < |s| && s[|s| - |last| - 1] == c)
    decreases |s|
  {
    if s != [] {
      SplitLastPiece(s[1..], c);
      var rest := Split(s[1..], c);
      var last := rest[|rest| - 1];
      assert last == s[|s| - |last|..];
      if s[0] == c {
        assert |rest| == 1 ==> s[|s| - |last| - 1] == s[0];
      } else {
        assert |rest| == 1 ==> [s[0]] + rest[0] == s;
      }
    }
  }

  /** Python's `c.join(parts)`. */
  function Join(parts: seq<string>, c: char): string
    requires |parts| >= 1
    decreases |parts|
  {
    if |parts| == 1 then parts[0] else parts[0] + [c] + Join(parts[1..], c)
  }

  /** Joining the pieces of a split, with the same separator, gives the text back. */
  lemma {:induction false} JoinSplit(s: string, c: char)
    ensures Join(Split(s, c), c) == s
    decreases |s|
  {
    if s != [] {
      JoinSplit(s[1..], c);
      var rest := Split(s[1..], c);
      if s[0] == c {
        assert Join([""] + rest, c) == [c] + Join(rest, c);
      } else {
        var parts := [[s[0]] + rest[0]] + rest[1..];
        if |rest| == 1 {
          assert Join(parts, c) == [s[0]] + rest[0];
        } else {
          assert parts[1..] == rest[1..];
          assert Join(parts, c) == [s[0]] + (rest[0] + [c] + Join(rest[1..], c));
        }
      }
    }
  }

  lemma {:induction false} SplitNoSeparator(p: string, c: char)
    requires c !in p
    ensures Split(p, c) == [p]
    decreases |p|
  {
    if p != [] {
      SplitNoSeparator(p[1..], c);
      assert [p[0]] + p[1..] == p;
    }
  }

  lemma {:induction false} SplitAfterPiece(p: string, c: char, t: string)
    requires c !in p
    ensures Split(p + [c] + t, c) == [p] + Split(t, c)
    decreases |p|
  {
    if p == [] {
      assert p + [c] + t == [c] + t;
      assert ([c] + t)[1..] == t;
    } else {
      var s := p + [c] + t;
      assert s[1..] == p[1..] + [c] + t;
      SplitAfterPiece(p[1..], c, t);
      assert [p[0]] + p[1..] == p;
    }
  }

  /** Splitting a join gives the pieces back, provided no piece holds the separator. */
  lemma {:induction false} SplitJoin(parts: seq<string>, c: char)
    requires |parts| >= 1
    requires forall k :: 0 <= k < |parts| ==> c !in parts[k]
    ensures Split(Join(parts, c), c) == parts
    decreases |parts|
  {
    if |parts| == 1 {
      SplitNoSeparator(parts[0], c);
    } else {
      SplitJoin(parts[1..], c);
      SplitAfterPiece(parts[0], c, Join(parts[1..], c));
      assert [parts[0]] + parts[1..] == parts;
    }
  }

  /**
    Python's `code.splitlines()` with `'\n'` as the only line break: an empty
    text has no lines, and a final line break does not start another line.
  */
  function Lines(code: string): (lines: seq<string>)
    ensures forall k :: 0 <= k < |lines| ==> '\n' !in lines[k]
  {
    if code == [] then []
    else
      var parts := Split(code, '\n');
      if code[|code| - 1] == '\n' then parts[..|parts| - 1] else parts
  }

  /** A text without line breaks is one line. */
  lemma LinesSingle(s: string)
    requires s != [] && '\n' !in s
    ensures Lines(s) == [s]
  {
    SplitNoSeparator(s, '\n');
  }

  /** Each line followed by a line break. */
  function Unlines(lines: seq<string>): string {
    if lines == [] then [] else lines[0] + "\n" + Unlines(lines[1..])
  }

  lemma {:induction false} UnlinesJoin(parts: seq<string>)
    requires |parts| >= 1
    ensures Unlines(parts[..|parts| - 1]) + parts[|parts| - 1] == Join(parts, '\n')
    decreases |parts|
  {
    if |parts| > 1 {
      UnlinesJoin(parts[1..]);
      assert parts[1..][..|parts| - 2] == parts[..|parts| - 1][1..];
    }
  }

  /**
    Lines are the inverse of terminating every line with a break: a text that
    is empty or ends in a break is its lines, each followed by a break; any
    other text is that with the final break missing.
  */
  lemma LinesRoundTrip(code: string)
    ensures code == [] || code[|code| - 1] == '\n' ==> Unlines(Lines(code)) == code
    ensures code != [] && code[|code| - 1] != '\n' ==> Unlines(Lines(code)) == code + "\n"
  {
    if code != [] {
      var parts := Split(code, '\n');
      JoinSplit(code, '\n');
      SplitLastPiece(code, '\n');
      UnlinesJoin(parts);
      var init, last := parts[..|parts| - 1], parts[|parts| - 1];
      assert init + [last] == parts;
      assert code[|code| - 1] == '\n' ==> last == [];
      assert code[|code| - 1] != '\n' ==> last != [];
      UnlinesSnoc(init, last);
    }
  }

  lemma {:induction false} UnlinesSnoc(lines: seq<string>, last: string)
    ensures Unlines(lines + [last]) == Unlines(lines) + last + "\n"
    decreases |lines|
  {
    if lines != [] {
      assert (lines + [last])[1..] == lines[1..] + [last];
      UnlinesSnoc(lines[1..], last);
    }
  }

  /** All lines run together. */
  function Concat(lines: seq<string>): string {
    if lines == [] then [] else Concat(lines[..|lines| - 1]) + lines[|lines| - 1]
  }

  /** Concatenation is associative. */
  lemma Assoc<T>(a: seq<T>, b: seq<T>, c: seq<T>)
    ensures (a + b) + c == a + (b + c)
  {
  }
}
