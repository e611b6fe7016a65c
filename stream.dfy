/** Properties of the whole token stream `tokenize` yields. The stream is stated on
    the reference definition `Lexer.Tokens`, which `Scanner.Tokenize` is proved to
    compute. `TokensAreTheLexemes` shows that `Tokens(u, s)` is the one and only way
    to split `s` into consecutive lexemes, so the properties of each token in the
    stream are stated once, for such a split. */
module TokenStream {
  import opened Unicode
  import opened Lexer

  /** Where the `k`-th token of `ts` starts: the total length of the tokens before it. */
  function Offset(ts: seq<Token>, k: nat): nat
    requires k <= |ts|
  {
    if k == 0 then 0 else ts[0].len + Offset(ts[1..], k - 1)
  }

  lemma {:induction false} OffsetNext(ts: seq<Token>, k: nat)
    requires k < |ts|
    ensures Offset(ts, k + 1) == Offset(ts, k) + ts[k].len
  {
    if k > 0 {
      OffsetNext(ts[1..], k - 1);
    }
  }

  /** A property of every character of a slice is one of the characters at those
      positions of the whole sequence. */
  lemma AllInSlice(p: char -> bool, s: seq<char>, lo: nat, hi: nat)
    requires lo <= hi <= |s|
    requires forall i :: 0 <= i < hi - lo ==> p(s[lo..][i])
    ensures forall i :: lo <= i < hi ==> p(s[i])
  {
    forall i | lo <= i < hi
      ensures p(s[i])
    {
      assert s[i] == s[lo..][i - lo];
    }
  }

  /** `ts` splits `s` into consecutive pieces, each meeting the description of a
      single scanning step on what is left of the input. */
  predicate Lexemes(u: Tables, s: seq<char>, ts: seq<Token>)
    decreases ts
  {
    if ts == [] then s == []
    else IsLexeme(u, s, ts[0]) && Lexemes(u, s[ts[0].len..], ts[1..])
  }

  /** The token stream is exactly the split of the input into lexemes: it is one, and
      there is no other. */
  lemma {:induction false} TokensAreTheLexemes(u: Tables, s: seq<char>, ts: seq<Token>)
    ensures Tokens(u, s) == ts <==> Lexemes(u, s, ts)
    decreases ts
  {
    if ts != [] && s != [] {
      var t := LexToken(u, s);
      LexTokenIsLexeme(u, s);
      TokensStep(u, s, t, s[t.len..]);
      if IsLexeme(u, s, ts[0]) {
        LexemeUnique(u, s, ts[0]);
        TokensAreTheLexemes(u, s[t.len..], ts[1..]);
      }
      if Tokens(u, s) == ts {
        assert ts[0] == t && ts[1..] == Tokens(u, s[t.len..]);
        TokensAreTheLexemes(u, s[t.len..], ts[1..]);
      }
    }
  }

  /** Coverage: the token lengths add up to the length of the input, so the tokens
      partition it with no gap and no overlap. */
  lemma {:induction false} TokensCover(u: Tables, s: seq<char>)
    ensures TotalLen(Tokens(u, s)) == |s|
  {
    if s != [] {
      TokensCover(u, s[LexToken(u, s).len..]);
    }
  }

  /** Every token has length at least one and is neither a `LineComment` nor a
      `NewLine`. */
  lemma {:induction false} TokensNonEmptyAndNotReserved(u: Tables, s: seq<char>)
    ensures forall k :: 0 <= k < |Tokens(u, s)| ==>
      && Tokens(u, s)[k].len >= 1
      && Tokens(u, s)[k].kind != LineComment
      && Tokens(u, s)[k].kind != NewLine
  {
    if s != [] {
      var t := LexToken(u, s);
      var r := s[t.len..];
      LexTokenIsLexeme(u, s);
      TokensNonEmptyAndNotReserved(u, r);
      assert Tokens(u, s) == [t] + Tokens(u, r);
    }
  }

  /** The `k`-th token of a split meets the description of a single step on the
      input left after the tokens before it. */
  lemma {:induction false} LexemeAt(u: Tables, s: seq<char>, ts: seq<Token>, k: nat)
    requires Lexemes(u, s, ts) && k < |ts|
    ensures Offset(ts, k) < |s| && IsLexeme(u, s[Offset(ts, k)..], ts[k])
    decreases ts
  {
    if k > 0 {
      var r := s[ts[0].len..];
      LexemeAt(u, r, ts[1..], k - 1);
      assert s[ts[0].len + Offset(ts[1..], k - 1)..] == r[Offset(ts[1..], k - 1)..];
    }
  }

  /** The last token of a split ends exactly at the end of the input. */
  lemma {:induction false} LastLexemeEndsInput(u: Tables, s: seq<char>, ts: seq<Token>)
    requires Lexemes(u, s, ts) && ts != []
    ensures Offset(ts, |ts| - 1) + ts[|ts| - 1].len == |s|
    decreases ts
  {
    if |ts| > 1 {
      LastLexemeEndsInput(u, s[ts[0].len..], ts[1..]);
    }
  }

  /** A whitespace token covers only whitespace and is maximal: what follows it is the
      end of the input or not whitespace. */
  lemma WhitespaceRunsMaximal(u: Tables, s: seq<char>, ts: seq<Token>, k: nat)
    requires Lexemes(u, s, ts) && k < |ts| && ts[k].kind == Whitespace
    ensures var off := Offset(ts, k);
      var next := off + ts[k].len;
      && off < next <= |s|
      && (forall i :: off <= i < next ==> IsWhitespace(s[i]))
      && (next == |s| || !IsWhitespace(s[next]))
  {
    var off := Offset(ts, k);
    LexemeAt(u, s, ts, k);
    AllInSlice(IsWhitespace, s, off, off + ts[k].len);
  }

  /** Hence no two whitespace tokens are adjacent. */
  lemma NoAdjacentWhitespace(u: Tables, s: seq<char>, ts: seq<Token>, k: nat)
    requires Lexemes(u, s, ts) && k + 1 < |ts|
    ensures !(ts[k].kind == Whitespace && ts[k + 1].kind == Whitespace)
  {
    if ts[k].kind == Whitespace {
      var next := Offset(ts, k) + ts[k].len;
      WhitespaceRunsMaximal(u, s, ts, k);
      OffsetNext(ts, k);
      LexemeAt(u, s, ts, k + 1);
      assert s[next..][0] == s[next];
    }
  }

  /** An identifier token covers an identifier start followed by identifier
      characters, it stops at the end of the input or before a character that cannot
      continue it, and it is invalid exactly when that character is a non-ASCII
      emoji. */
  lemma IdentRunsMaximal(u: Tables, s: seq<char>, ts: seq<Token>, k: nat)
    requires Lexemes(u, s, ts) && k < |ts|
    requires ts[k].kind == Ident || ts[k].kind == InvalidIdent
    ensures var off := Offset(ts, k);
      var next := off + ts[k].len;
      && off < next <= |s|
      && IsIdStart(u, s[off])
      && (forall i :: off < i < next ==> IsIdContinue(u, s[i]))
      && (next == |s| || !IsIdContinue(u, s[next]))
      && (ts[k].kind == InvalidIdent <==> next < |s| && !IsAscii(s[next]) && IsEmoji(u, s[next]))
  {
    var off := Offset(ts, k);
    LexemeAt(u, s, ts, k);
    AllInSlice(IdContinue(u), s, off + 1, off + ts[k].len);
  }

  /** Two identifier tokens can be adjacent, but only when the second one starts with
      '_': an underscore may start an identifier but not continue one. */
  lemma AdjacentIdentsOnlyAtUnderscore(u: Tables, s: seq<char>, ts: seq<Token>, k: nat)
    requires Lexemes(u, s, ts) && k + 1 < |ts|
    requires ts[k].kind == Ident || ts[k].kind == InvalidIdent
    requires ts[k + 1].kind == Ident || ts[k + 1].kind == InvalidIdent
    ensures Offset(ts, k + 1) < |s| && s[Offset(ts, k + 1)] == '_'
  {
    IdentRunsMaximal(u, s, ts, k);
    LexemeAt(u, s, ts, k + 1);
    OffsetNext(ts, k);
    assert s[Offset(ts, k + 1)..][0] == s[Offset(ts, k + 1)];
  }

  /** `is_ident` agrees with tokenization: a string is an identifier exactly when it
      tokenizes to a single valid identifier token spanning all of it. The direction
      from `is_ident` needs the Unicode tables to class the non-ASCII whitespace
      characters as non-alphabetic, as the real tables do. */
  lemma IsIdentIffSingleIdent(u: Tables, s: seq<char>)
    requires SeparatorsNotAlphabetic(u)
    ensures IsIdent(u, s) <==> Tokens(u, s) == [Token(Ident, |s|)]
  {
    var t := Token(Ident, |s|);
    TokensAreTheLexemes(u, s, [t]);
    assert Lexemes(u, s, [t]) <==> IsLexeme(u, s, t) && s[|s|..] == [];
  }
}
