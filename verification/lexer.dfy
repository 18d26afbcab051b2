/** The pieces of MySQL's lexical rules the substitution protocol relies on:
    user-variable names, the `QUOTE()` string function, and how a
    single-quoted string literal is read back (default SQL mode, where a
    backslash starts an escape sequence). */
module Lexer {
  import opened Results

  const Nul: char := 0 as char
  const CtrlZ: char := 26 as char

  predicate IsDigit(c: char) {
    '0' <= c <= '9'
  }

  predicate IsLetter(c: char) {
    'a' <= c <= 'z' || 'A' <= c <= 'Z'
  }

  /** Characters allowed in an unquoted user-variable name `@name`. */
  predicate IsIdentChar(c: char) {
    IsLetter(c) || IsDigit(c) || c == '_' || c == '$' || c == '.'
  }

  /** A name that reads as one user variable and never as a number. */
  predicate IsIdentifier(s: string) {
    |s| > 0 && IsLetter(s[0]) && forall k :: 0 <= k < |s| ==> IsIdentChar(s[k])
  }

  /** How `QUOTE()` writes one character: backslash, single quote, NUL and
      Control+Z are each preceded by a backslash. */
  function EscapeChar(c: char): string {
    if c == '\\' then "\\\\"
    else if c == '\'' then "\\'"
    else if c == Nul then "\\0"
    else if c == CtrlZ then "\\Z"
    else [c]
  }

  function EscapeAll(v: string): string {
    if |v| == 0 then "" else EscapeChar(v[0]) + EscapeAll(v[1..])
  }

  /** The result of `QUOTE(v)` for a non-NULL string `v`. */
  function Quote(v: string): (q: string)
    ensures |q| >= 2 && q[0] == '\'' && q[|q| - 1] == '\''
  {
    "'" + EscapeAll(v) + "'"
  }

  /** The character(s) the lexer reads for the escape sequence `\c`. */
  function Unescape(c: char): string {
    if c == '0' then [Nul]
    else if c == 'b' then [8 as char]
    else if c == 'n' then [10 as char]
    else if c == 'r' then [13 as char]
    else if c == 't' then [9 as char]
    else if c == 'Z' then [CtrlZ]
    else if c == '%' || c == '_' then ['\\', c]
    else [c]
  }

  function PrependValue(prefix: string, r: Option<(string, string)>): Option<(string, string)> {
    match r
    case None => None
    case Some((v, rest)) => Some((prefix + v, rest))
  }

  /** Reads the inside of a single-quoted literal up to its closing quote:
      the literal's value and the text after it, or `None` when the
      literal is not terminated. */
  function ScanBody(s: string): (r: Option<(string, string)>)
    ensures r.Some? ==> |r.value.1| < |s|
  {
    if |s| == 0 then None
    else if s[0] == '\\' then
      if |s| == 1 then None else PrependValue(Unescape(s[1]), ScanBody(s[2..]))
    else if s[0] == '\'' then
      if |s| >= 2 && s[1] == '\'' then PrependValue("'", ScanBody(s[2..]))
      else Some(("", s[1..]))
    else PrependValue([s[0]], ScanBody(s[1..]))
  }

  /** Reads one single-quoted string literal at the start of `s`. */
  function ScanLiteral(s: string): Option<(string, string)> {
    if |s| > 0 && s[0] == '\'' then ScanBody(s[1..]) else None
  }

  /** Reading one escaped character back yields that character. */
  lemma ScanEscapedChar(c: char, tail: string)
    ensures ScanBody(EscapeChar(c) + tail) == PrependValue([c], ScanBody(tail))
  {
    var s := EscapeChar(c) + tail;
    if c == '\\' || c == '\'' || c == Nul || c == CtrlZ {
      assert s[0] == '\\' && s[2..] == tail;
    } else {
      assert s[0] == c && s[1..] == tail;
    }
  }

  lemma {:induction false} ScanEscaped(v: string, rest: string)
    requires |rest| == 0 || rest[0] != '\''
    ensures ScanBody(EscapeAll(v) + "'" + rest) == Some((v, rest))
  {
    if |v| == 0 {
      assert EscapeAll(v) + "'" + rest == "'" + rest;
    } else {
      var tail := EscapeAll(v[1..]) + "'" + rest;
      ScanEscaped(v[1..], rest);
      assert EscapeAll(v) + "'" + rest == EscapeChar(v[0]) + tail;
      ScanEscapedChar(v[0], tail);
      assert [v[0]] + v[1..] == v;
    }
  }

  /** Whatever the value, its quoted form is read back as exactly one
      literal holding that value, and the text after it is left alone. */
  lemma QuoteScans(v: string, rest: string)
    requires |rest| == 0 || rest[0] != '\''
    ensures ScanLiteral(Quote(v) + rest) == Some((v, rest))
  {
    ScanEscaped(v, rest);
    assert (Quote(v) + rest)[1..] == EscapeAll(v) + "'" + rest;
  }
}
