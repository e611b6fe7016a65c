/** The pure half of the tokenizer in `src/lib.rs`: its token types, the character
    classifiers, the whole-string identifier test, and a reference definition of what
    one scanning step and the whole token stream produce. The imperative cursor in
    module Scanner is proved to compute exactly these. */
module Lexer {
  import opened Unicode

  datatype TokenKind = LineComment | Ident | InvalidIdent | NewLine | Whitespace | Dot | Unknown

  /** A token is a kind and a length in characters; it does not copy the text. */
  datatype Token = Token(kind: TokenKind, len: nat)

  predicate IsNewline(c: char) {
    c == '\r' || c == '\n' || c == '\U{85}'
  }

  /** The curated whitespace set: tab, vertical tab, form feed, space, the two bidi
      marks, LINE SEPARATOR and PARAGRAPH SEPARATOR. Newlines are not in it. */
  predicate IsWhitespace(c: char) {
    || c == '\t' || c == '\U{0B}' || c == '\U{0C}' || c == ' '
    || c == '\U{200E}' || c == '\U{200F}'
    || c == '\U{2028}' || c == '\U{2029}'
  }

  predicate IsIdStart(u: Tables, c: char) {
    c == '_' || IsAlphabetic(u, c)
  }

  predicate IsIdContinue(u: Tables, c: char) {
    IsAlphanumeric(u, c)
  }

  /** On ASCII the classifiers have fixed answers: an identifier starts with '_' or a
      letter and continues with letters and digits, so '_' may start an identifier
      but not continue one; whitespace and line breaks are neither. */
  lemma AsciiClasses(u: Tables, c: char)
    requires IsAscii(c)
    ensures IsIdStart(u, c) <==> c == '_' || IsAsciiLetter(c)
    ensures IsIdContinue(u, c) <==> IsAsciiLetter(c) || IsAsciiDigit(c)
    ensures IsWhitespace(c) || IsNewline(c) ==> !IsIdStart(u, c) && !IsIdContinue(u, c)
  {
  }

  /** `is_id_continue` as a value, for `eat_while`. */
  function IdContinue(u: Tables): char -> bool {
    c => IsIdContinue(u, c)
  }

  /** `Iterator::all(is_id_continue)` over the characters of `s`. */
  function AllIdContinue(u: Tables, s: seq<char>): (r: bool)
    ensures r <==> forall i :: 0 <= i < |s| ==> IsIdContinue(u, s[i])
  {
    if s == [] then true else IsIdContinue(u, s[0]) && AllIdContinue(u, s[1..])
  }

  /** `is_ident`: the first character is taken from the iterator, then `all` runs
      over the remainder. */
  function IsIdent(u: Tables, s: seq<char>): (r: bool)
    ensures r <==> |s| > 0 && IsIdStart(u, s[0]) && forall i :: 1 <= i < |s| ==> IsIdContinue(u, s[i])
  {
    if s == [] then false
    else
      var rest := s[1..];
      assert forall i :: 1 <= i < |s| ==> s[i] == rest[i - 1];
      IsIdStart(u, s[0]) && AllIdContinue(u, rest)
  }

  /** The number of characters `eat_while(p)` consumes from remaining input `s`. */
  function RunLength(p: char -> bool, s: seq<char>): (n: nat)
    ensures n <= |s|
    ensures forall i :: 0 <= i < n ==> p(s[i])
    ensures n == |s| || !p(s[n])
  {
    if s == [] || !p(s[0]) then 0 else 1 + RunLength(p, s[1..])
  }

  /** A prefix of `s` on which `p` holds throughout and that stops at the end or at a
      character failing `p` is exactly the run `eat_while(p)` consumes. */
  lemma {:induction false} RunLengthUnique(p: char -> bool, s: seq<char>, n: nat)
    requires n <= |s|
    requires forall i :: 0 <= i < n ==> p(s[i])
    requires n == |s| || !p(s[n])
    ensures RunLength(p, s) == n
  {
    if n > 0 {
      assert forall i :: 0 <= i < n - 1 ==> s[1..][i] == s[i + 1];
      RunLengthUnique(p, s[1..], n - 1);
    }
  }

  /** Reference definition of one step of the driver on remaining input `s`:
      the token `advance_token` produces when the consumed counter was reset. */
  function LexToken(u: Tables, s: seq<char>): (t: Token)
    requires s != []
    ensures 1 <= t.len <= |s|
  {
    var c, rest := s[0], s[1..];
    if IsWhitespace(c) then
      Token(Whitespace, 1 + RunLength(IsWhitespace, rest))
    else if IsIdStart(u, c) then
      var n := 1 + RunLength(IdContinue(u), rest);
      Token(if n < |s| && !IsAscii(s[n]) && IsEmoji(u, s[n]) then InvalidIdent else Ident, n)
    else if c == '.' then
      Token(Dot, 1)
    else
      Token(Unknown, 1)
  }

  /** Independent description of the token the driver assigns to the start of `s`.
      The kind follows the dispatch priority on the first character (whitespace, then
      identifier start, then '.', then anything else); whitespace and identifiers
      span maximal runs; an identifier is invalid exactly when the character after it
      is a non-ASCII emoji, and that character is not part of it; the kinds
      `LineComment` and `NewLine` are never assigned. */
  predicate IsLexeme(u: Tables, s: seq<char>, t: Token) {
    && s != []
    && 1 <= t.len <= |s|
    && match t.kind
       case Whitespace =>
         && IsWhitespace(s[0])
         && (forall i :: 0 <= i < t.len ==> IsWhitespace(s[i]))
         && (t.len == |s| || !IsWhitespace(s[t.len]))
       case Ident | InvalidIdent =>
         && !IsWhitespace(s[0]) && IsIdStart(u, s[0])
         && (forall i :: 1 <= i < t.len ==> IsIdContinue(u, s[i]))
         && (t.len == |s| || !IsIdContinue(u, s[t.len]))
         && (t.kind == InvalidIdent <==> t.len < |s| && !IsAscii(s[t.len]) && IsEmoji(u, s[t.len]))
       case Dot =>
         !IsWhitespace(s[0]) && !IsIdStart(u, s[0]) && s[0] == '.' && t.len == 1
       case Unknown =>
         !IsWhitespace(s[0]) && !IsIdStart(u, s[0]) && s[0] != '.' && t.len == 1
       case LineComment | NewLine =>
         false
  }

  /** The scanning step meets its description. */
  lemma LexTokenIsLexeme(u: Tables, s: seq<char>)
    requires s != []
    ensures IsLexeme(u, s, LexToken(u, s))
  {
  }

  /** ... and nothing else does: the description determines the token. */
  lemma {:induction false} LexemeUnique(u: Tables, s: seq<char>, t: Token)
    requires IsLexeme(u, s, t)
    ensures t == LexToken(u, s)
  {
    var rest := s[1..];
    assert forall i :: 0 <= i < |rest| ==> rest[i] == s[i + 1];
    if t.kind == Whitespace {
      RunLengthUnique(IsWhitespace, rest, t.len - 1);
    } else if t.kind == Ident || t.kind == InvalidIdent {
      RunLengthUnique(IdContinue(u), rest, t.len - 1);
    }
  }

  /** A line break is not whitespace, so it falls through the dispatch to a one
      character unknown token, provided the tables do not class NEXT LINE as
      alphabetic (the real ones do not). */
  lemma LineBreakIsUnknown(u: Tables, s: seq<char>)
    requires s != [] && IsNewline(s[0]) && !u.alphabetic('\U{85}')
    ensures LexToken(u, s) == Token(Unknown, 1)
  {
  }

  /** Reference definition of the token stream `tokenize` yields. */
  function Tokens(u: Tables, s: seq<char>): (ts: seq<Token>)
    ensures |ts| <= |s|
    ensures ts == [] <==> s == []
    decreases |s|
  {
    if s == [] then []
    else
      var t := LexToken(u, s);
      [t] + Tokens(u, s[t.len..])
  }

  /** One step of the stream: the first token, then the stream of what it leaves. */
  lemma TokensStep(u: Tables, s: seq<char>, t: Token, r: seq<char>)
    requires s != [] && t == LexToken(u, s) && r == s[t.len..]
    ensures Tokens(u, s) == [t] + Tokens(u, r)
  {
  }

  /** The sum of the lengths of `ts`. */
  function TotalLen(ts: seq<Token>): nat {
    if ts == [] then 0 else ts[0].len + TotalLen(ts[1..])
  }
}
