// Splitting and tidying text. Which characters are white space or
// alphanumeric, and how text is lower-cased, is the Unicode standard's and
// comes in as a `Lexer`.
module Text {

  datatype Lexer = Lexer(isSpace: char -> bool, isAlphanumeric: char -> bool, lower: string -> string)

  /** How many characters of `s` come before the first one satisfying `stop`. */
  function Until(s: string, stop: char -> bool): (n: nat)
    ensures n <= |s|
    ensures forall i :: 0 <= i < n ==> !stop(s[i])
    ensures n < |s| ==> stop(s[n])
  {
    if s == [] || stop(s[0]) then 0 else 1 + Until(s[1..], stop)
  }

  /** The maximal runs without a separator, as `split_whitespace` gives them. */
  function Fields(s: string, isSeparator: char -> bool): (fields: seq<string>)
    ensures forall f :: f in fields ==> f != [] && forall c :: c in f ==> !isSeparator(c) && c in s
    decreases |s|
  {
    if s == [] then []
    else if isSeparator(s[0]) then Fields(s[1..], isSeparator)
    else
      var n := Until(s, isSeparator);
      [s[..n]] + Fields(s[n..], isSeparator)
  }

  function TrimStart(s: string, drop: char -> bool): string {
    if s != [] && drop(s[0]) then TrimStart(s[1..], drop) else s
  }

  function TrimEnd(s: string, drop: char -> bool): string {
    if s != [] && drop(s[|s| - 1]) then TrimEnd(s[..|s| - 1], drop) else s
  }

  function Trim(s: string, drop: char -> bool): string {
    TrimEnd(TrimStart(s, drop), drop)
  }

  function Join(parts: seq<string>, separator: string): string {
    if parts == [] then []
    else if |parts| == 1 then parts[0]
    else parts[0] + separator + Join(parts[1..], separator)
  }

  function Lowered(fields: seq<string>, lex: Lexer): seq<string> {
    if fields == [] then [] else [lex.lower(fields[0])] + Lowered(fields[1..], lex)
  }

  /** White space collapsed to single spaces. */
  function Clean(s: string, lex: Lexer): string {
    Join(Fields(s, lex.isSpace), " ")
  }

  /** Lower case, white space collapsed: how quotes are compared with mail. */
  function Loose(s: string, lex: Lexer): string {
    Join(Lowered(Fields(s, lex.isSpace), lex), " ")
  }

  /** `to_ascii_lowercase` */
  function LowerAscii(s: string): (r: string)
    ensures |r| == |s|
    ensures forall i :: 0 <= i < |s| ==> r[i] == if 'A' <= s[i] <= 'Z' then (s[i] as int + 32) as char else s[i]
  {
    if s == "" then "" else [if 'A' <= s[0] <= 'Z' then (s[0] as int + 32) as char else s[0]] + LowerAscii(s[1..])
  }

  /** The words of a text, lower-cased, without punctuation at their ends. */
  function Words(s: string, lex: Lexer): seq<string> {
    Bare(Fields(s, lex.isSpace), lex)
  }

  function Bare(fields: seq<string>, lex: Lexer): seq<string> {
    if fields == [] then []
    else
      var word := lex.lower(Trim(fields[0], c => !lex.isAlphanumeric(c)));
      (if word == [] then [] else [word]) + Bare(fields[1..], lex)
  }
}
