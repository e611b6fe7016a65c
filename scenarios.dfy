/** Concrete inputs and the token streams they yield, for every choice of Unicode
    tables; the first is the expectation of the test in `src/tests.rs`. Each stream
    is shown to split its input into lexemes, which by
    `TokenStream.TokensAreTheLexemes` makes it the token stream of that input. */
module Scenarios {
  import opened Unicode
  import opened Lexer
  import opened TokenStream

  lemma NamespaceLexemes(u: Tables)
    ensures Lexemes(u, "namespace com.example.foo",
      [Token(Ident, 9), Token(Whitespace, 1), Token(Ident, 3), Token(Dot, 1),
       Token(Ident, 7), Token(Dot, 1), Token(Ident, 3)])
  {
    NamespaceKeyword(u);
    SpacedLexemes(u);
  }

  lemma NamespaceKeyword(u: Tables)
    ensures IsLexeme(u, "namespace com.example.foo", Token(Ident, 9))
    ensures "namespace com.example.foo"[9..] == " com.example.foo"
  {
  }

  lemma SpacedLexemes(u: Tables)
    ensures Lexemes(u, " com.example.foo",
      [Token(Whitespace, 1), Token(Ident, 3), Token(Dot, 1), Token(Ident, 7), Token(Dot, 1),
       Token(Ident, 3)])
  {
    DottedLexemes(u);
    assert Lexemes(u, "com.example.foo",
      [Token(Ident, 3), Token(Dot, 1), Token(Ident, 7), Token(Dot, 1), Token(Ident, 3)]);
  }

  lemma DottedLexemes(u: Tables)
    ensures Lexemes(u, ".example.foo",
      [Token(Dot, 1), Token(Ident, 7), Token(Dot, 1), Token(Ident, 3)])
  {
    assert Lexemes(u, "", []);
    assert Lexemes(u, "foo", [Token(Ident, 3)]);
    assert Lexemes(u, ".foo", [Token(Dot, 1), Token(Ident, 3)]);
    assert Lexemes(u, "example.foo", [Token(Ident, 7), Token(Dot, 1), Token(Ident, 3)]);
  }

  lemma Namespace(u: Tables)
    ensures Tokens(u, "namespace com.example.foo") ==
      [Token(Ident, 9), Token(Whitespace, 1), Token(Ident, 3), Token(Dot, 1),
       Token(Ident, 7), Token(Dot, 1), Token(Ident, 3)]
  {
    NamespaceLexemes(u);
    TokensAreTheLexemes(u, "namespace com.example.foo",
      [Token(Ident, 9), Token(Whitespace, 1), Token(Ident, 3), Token(Dot, 1),
       Token(Ident, 7), Token(Dot, 1), Token(Ident, 3)]);
  }

  lemma SingleDot(u: Tables)
    ensures Tokens(u, ".") == [Token(Dot, 1)]
  {
    assert Lexemes(u, "", []);
    TokensAreTheLexemes(u, ".", [Token(Dot, 1)]);
  }

  lemma UnderscoreStart(u: Tables)
    ensures Tokens(u, "_x9") == [Token(Ident, 3)]
  {
    assert Lexemes(u, "", []);
    TokensAreTheLexemes(u, "_x9", [Token(Ident, 3)]);
  }

  /** An underscore starts an identifier but does not continue one, so "a_b" is two
      adjacent identifier tokens and not an identifier as a whole. */
  lemma UnderscoreSplits(u: Tables)
    ensures Tokens(u, "a_b") == [Token(Ident, 1), Token(Ident, 2)]
    ensures !IsIdent(u, "a_b")
  {
    assert Lexemes(u, "", []);
    assert Lexemes(u, "_b", [Token(Ident, 2)]);
    TokensAreTheLexemes(u, "a_b", [Token(Ident, 1), Token(Ident, 2)]);
  }

  /** Line breaks are not whitespace to this tokenizer: each is an unknown token. */
  lemma LineBreaksAreUnknown(u: Tables)
    ensures Tokens(u, "\r\n") == [Token(Unknown, 1), Token(Unknown, 1)]
  {
    assert Lexemes(u, "", []);
    assert Lexemes(u, "\n", [Token(Unknown, 1)]);
    TokensAreTheLexemes(u, "\r\n", [Token(Unknown, 1), Token(Unknown, 1)]);
  }

  /** So is NEXT LINE, provided the tables do not class it as alphabetic (the real
      ones do not). */
  lemma NextLineIsUnknown(u: Tables)
    requires !u.alphabetic('\U{85}')
    ensures Tokens(u, "\U{85}") == [Token(Unknown, 1)]
  {
    assert Lexemes(u, "", []);
    TokensAreTheLexemes(u, "\U{85}", [Token(Unknown, 1)]);
  }

  /** A letter followed by an emoji (U+1F600, GRINNING FACE): an invalid identifier
      of length one, not counting the emoji, and the emoji itself an unknown token,
      provided the tables class that character as an emoji and as not alphabetic. */
  lemma IdentBeforeEmoji(u: Tables)
    requires IsEmoji(u, '\U{1F600}') && !u.alphabetic('\U{1F600}') && !u.numeric('\U{1F600}')
    ensures Tokens(u, "a\U{1F600}") == [Token(InvalidIdent, 1), Token(Unknown, 1)]
  {
    assert Lexemes(u, "", []);
    assert Lexemes(u, "\U{1F600}", [Token(Unknown, 1)]);
    TokensAreTheLexemes(u, "a\U{1F600}", [Token(InvalidIdent, 1), Token(Unknown, 1)]);
  }

  /** An ASCII character after an identifier never makes it invalid, whatever the
      emoji table says of it ('#' has the emoji property in Unicode). */
  lemma IdentBeforeHash(u: Tables)
    ensures Tokens(u, "a#") == [Token(Ident, 1), Token(Unknown, 1)]
  {
    assert Lexemes(u, "", []);
    assert Lexemes(u, "#", [Token(Unknown, 1)]);
    TokensAreTheLexemes(u, "a#", [Token(Ident, 1), Token(Unknown, 1)]);
  }
}
