# A verified model of a small identifier tokenizer

The system is a tokenizer library (`src/lib.rs`). `tokenize` turns a string into a
stream of tokens. A token (`Token`, `src/lib.rs:9-19`) is a kind (`TokenKind`,
`src/lib.rs:21-31`) and a length: identifiers, invalid identifiers, runs of
whitespace, dots, and single unknown characters. They are the datatypes
`Lexer.Token` and `Lexer.TokenKind`, with the same seven kinds in the same order,
and `Token::new` is the datatype constructor. The model reads the input as a
sequence of characters and counts lengths in characters. The library
also has the character classifiers it is built on (`is_newline`, `is_whitespace`,
`is_id_start`, `is_id_continue`) and the whole-string test `is_ident`.

The project has five modules:

- `Unicode` (`unicode.dfy`) stands in for the Unicode property tables the
  classifiers use (`char::is_alphabetic`, `char::is_alphanumeric` and the emoji test
  of `unic_emoji_char`). A `Tables` value gives an arbitrary answer for each
  character outside ASCII. Inside ASCII the alphabetic and numeric answers are fixed:
  letters and digits. Every result below holds for every choice of tables, except
  where a lemma names a table fact as a precondition.
- `Lexer` (`lexer.dfy`) holds the token types, the classifiers and `is_ident`. It
  also has two reference functions: `LexToken`, for what one scanning step produces,
  and `Tokens`, for the whole stream. `IsLexeme` describes a token independently of
  how it is computed; `LexToken` is proved to meet it, and it is the only token that
  does.
- `Scanner` (`scanner.dfy`) is the imperative part. It has the cursor class with
  `is_eof`, `first`, `eat`, `eat_while`, `reset_len_consumed` and `len_consumed`.
  It also has the `impl Cursor` block of `src/lib.rs` (`advance_token`,
  `whitespace` and `ident`), the closure `tokenize` hands to `std::iter::from_fn`,
  and the `tokenize` loop. Each method is proved to compute what the reference
  functions define.
- `TokenStream` (`stream.dfy`) proves properties of the whole stream:
  - the tokens cover the input exactly;
  - every token is non-empty;
  - `LineComment` and `NewLine` are never produced;
  - whitespace and identifier runs are maximal;
  - identifier tokens have the right shape and the right valid/invalid verdict;
  - `is_ident(s)` holds exactly when `s` tokenizes to a single identifier.
- `Scenarios` (`scenarios.dfy`) proves that the input of the test in `src/tests.rs`
  gives the token stream that test expects. It does the same for a few edge cases.

### Two behaviours of the code worth knowing

- **Where the counter is reset.** The consumed-length counter is reset by
  `tokenize` just before it calls `advance_token` (`src/lib.rs:88-89`), not by
  `advance_token` itself. As a result,
  `Scanner.Cursor.AdvanceToken` reports the old count plus the length of the token it
  scans. `Scanner.Cursor.Next` resets first, so its token length is the length of the
  token alone.
- **Adjacent identifier tokens.** Two identifier tokens can be adjacent. `_` is an identifier start
  (`src/lib.rs:64`), but it is not alphanumeric, so it cannot continue an identifier
  (`src/lib.rs:68`). So `"a_b"` gives `Ident 1` followed by `Ident 2`.
  - `Scenarios.UnderscoreSplits` proves this case.
  - `TokenStream.AdjacentIdentsOnlyAtUnderscore` proves the general rule: two
    adjacent identifier tokens can only happen where the second one starts with `_`.
  - Whitespace tokens, by contrast, are never adjacent (`TokenStream.NoAdjacentWhitespace`).

## Model

| member | source | states |
|---|---|---|
| `Lexer.IsNewline` | src/lib.rs:33-41 | The body is the character set at the cited lines: `\r`, `\n` and NEXT LINE (U+0085). |
| `Lexer.IsWhitespace` | src/lib.rs:43-61 | The body is the character set at the cited lines: tab, vertical tab, form feed, space, the two bidi marks, LINE SEPARATOR and PARAGRAPH SEPARATOR. |
| `Lexer.IsIdStart` | src/lib.rs:63-65 | The body is the expression at the cited lines: `_` or alphabetic. |
| `Lexer.IsIdContinue` | src/lib.rs:67-69 | The body is the expression at the cited lines: alphanumeric. |
| `Unicode.IsAlphanumeric` | src/lib.rs:67-69 | `char::is_alphanumeric`, which `is_id_continue` calls. Its body is Rust's definition of it: alphabetic or numeric. |
| `Lexer.AsciiClasses` | src/lib.rs:63-69 | On ASCII, an identifier starts with `_` or a letter and continues with a letter or digit. So `_` starts an identifier but does not continue one, and whitespace and line breaks are neither. |
| `Lexer.AllIdContinue` | src/lib.rs:75 | `chars.all(is_id_continue)` holds exactly when every character satisfies `is_id_continue`. |
| `Lexer.IsIdent` | src/lib.rs:72-79 | `is_ident(s)` holds exactly when `s` is non-empty, its first character is an identifier start, and every later character continues an identifier. In particular `is_ident("")` is false. |
| `Lexer.RunLength` | src/lib.rs:111-118 | The run `eat_while(p)` eats fits in the remaining input, every character in it satisfies `p`, and it stops at the end or at a character failing `p`. |
| `Lexer.RunLengthUnique` | src/lib.rs:111-118 | Any prefix with those three properties is exactly the run `eat_while(p)` eats. |
| `Lexer.LexToken` | src/lib.rs:96-125 | One scanning step on non-empty input yields a token of length at least one and at most the input length. |
| `Lexer.LexTokenIsLexeme` | src/lib.rs:96-125 | The scanning step meets the independent description `IsLexeme`, which has the following parts. Dispatch priority is whitespace, then identifier start, then `.`, then anything else. Whitespace and identifier runs are maximal. An identifier is invalid exactly when the character after it is a non-ASCII emoji, and that character is not counted. `.` and unknown characters give tokens of length 1. `LineComment` and `NewLine` are never assigned. |
| `Lexer.LexemeUnique` | src/lib.rs:96-125 | That description determines the token: a token that meets it is the token the scanning step yields. |
| `Lexer.LineBreakIsUnknown` | src/lib.rs:33-61 | The line breaks (`\r`, `\n`, NEXT LINE) are not whitespace. A line break at the start of the input therefore scans as a one-character unknown token, provided the tables do not class NEXT LINE as alphabetic. |
| `Lexer.Tokens` | src/lib.rs:82-92 | The token stream has no more tokens than the input has characters, and it is empty exactly when the input is empty. |
| `Lexer.TokensStep` | src/lib.rs:84-91 | The stream of non-empty input is the first scanned token followed by the stream of what that token leaves. |
| `Scanner.Cursor.constructor` | src/lib.rs:83 | The new cursor is over the whole input and has nothing counted. |
| `Scanner.Cursor.IsEof` | src/lib.rs:85 | `is_eof` is true exactly when no characters remain. |
| `Scanner.Cursor.First` | src/lib.rs:121 | `first` returns the next character without advancing, or NUL at the end of input. |
| `Scanner.Cursor.LenConsumed` | src/lib.rs:108 | The count reported is at most the number of characters eaten so far. |
| `Scanner.Cursor.ResetLenConsumed` | src/lib.rs:88 | The counter becomes zero and the position stays the same. |
| `Scanner.Cursor.Eat` | src/lib.rs:97 | At the end of input, `eat` returns nothing and changes nothing. Otherwise it returns the next character and advances the position and the counter by one. |
| `Scanner.Cursor.EatWhile` | src/lib.rs:112 | The position and the counter both advance by exactly the maximal run of characters satisfying the predicate. |
| `Scanner.Cursor.Whitespace` | src/lib.rs:111-114 | `whitespace` eats the maximal whitespace run that follows and returns `Whitespace`. |
| `Scanner.Cursor.Ident` | src/lib.rs:116-125 | `ident` eats the maximal run of identifier characters that follows. It then peeks without eating, and returns `InvalidIdent` exactly when the peeked character exists and is a non-ASCII emoji. |
| `Scanner.Cursor.AdvanceToken` | src/lib.rs:96-109 | On non-empty remaining input, the kind is the reference step's kind and the cursor advances by the reference step's length. The reported length is the old count plus that length. |
| `Scanner.Cursor.Next` | src/lib.rs:84-91 | At the end of input the closure returns `None` and changes nothing. Otherwise it returns the reference step's token and leaves the cursor just after it, with the counter equal to the token's length. |
| `Scanner.Tokenize` | src/lib.rs:82-92 | Draining the iterator gives exactly the reference token stream. |
| `TokenStream.TokensAreTheLexemes` | src/lib.rs:82-109 | The token stream is a split of the input into consecutive lexemes, and no other sequence of tokens is such a split. |
| `TokenStream.TokensCover` | src/lib.rs:82-92 | The token lengths add up to the length of the input. |
| `TokenStream.TokensNonEmptyAndNotReserved` | src/lib.rs:88-108 | Every token has length at least one, and none is a `LineComment` or a `NewLine`. |
| `TokenStream.LexemeAt` | src/lib.rs:84-109 | In a lexeme split, the k-th token starts inside the input and meets the description of a scanning step on the input left at its offset. |
| `TokenStream.LastLexemeEndsInput` | src/lib.rs:85-86 | In a lexeme split, the last token ends exactly at the end of the input, so the loop stops exactly at the end of input. |
| `TokenStream.WhitespaceRunsMaximal` | src/lib.rs:98-114 | A whitespace token covers only whitespace and is followed by the end of input or a non-whitespace character. |
| `TokenStream.NoAdjacentWhitespace` | src/lib.rs:111-114 | No two consecutive tokens are both whitespace. |
| `TokenStream.IdentRunsMaximal` | src/lib.rs:116-125 | An identifier token starts with an identifier start and continues with identifier characters, and what follows cannot continue it. It is invalid exactly when the next character is a non-ASCII emoji. |
| `TokenStream.AdjacentIdentsOnlyAtUnderscore` | src/lib.rs:63-69 | When two identifier tokens are consecutive, the second starts with `_`. |
| `TokenStream.IsIdentIffSingleIdent` | src/lib.rs:72-79 | `is_ident(s)` holds exactly when `s` tokenizes to one valid identifier spanning all of it. This assumes the tables class the four non-ASCII whitespace characters as not alphabetic, as Unicode does. |
| `Scenarios.Namespace` | src/tests.rs:12-24 | `"namespace com.example.foo"` gives `Ident 9, Whitespace 1, Ident 3, Dot 1, Ident 7, Dot 1, Ident 3`. |
| `Scenarios.SingleDot` | src/lib.rs:104 | `"."` gives a single `Dot` of length 1. |
| `Scenarios.UnderscoreStart` | src/lib.rs:63-65 | `"_x9"` is one identifier of length 3. |
| `Scenarios.UnderscoreSplits` | src/lib.rs:67-69 | `"a_b"` gives `Ident 1, Ident 2`, and it is not an identifier. |
| `Scenarios.LineBreaksAreUnknown` | src/lib.rs:33-41 | `"\r\n"` gives two unknown tokens of length 1. |
| `Scenarios.NextLineIsUnknown` | src/lib.rs:38-39 | NEXT LINE alone gives one unknown token of length 1. |
| `Scenarios.IdentBeforeEmoji` | src/lib.rs:121-122 | `"a"` followed by U+1F600 gives `InvalidIdent 1`, then `Unknown 1`; the emoji is not counted in the identifier. This needs the tables to class U+1F600 as an emoji and as neither alphabetic nor numeric, so that it is a non-ASCII emoji. |
| `Scenarios.IdentBeforeHash` | src/lib.rs:121-123 | A letter followed by `#` gives `Ident 1, Unknown 1`. This holds whatever the emoji table says of `#`, because an ASCII character never makes an identifier invalid. |

## Left out

- `src/cursor.rs` is not part of this model. The cursor primitives are modelled from how `src/lib.rs` uses them: a position and a consumed-since-reset counter over an immutable character sequence. At the end of input, `first` returns NUL. That is an ASCII sentinel, so it cannot make an identifier invalid.
- The Unicode property tables behind `is_alphabetic`, `is_alphanumeric` and `is_emoji` are foreign library data. The model takes them as a parameter and fixes only the ASCII answers Rust's definitions give; the emoji table is left open even on ASCII. Where a result depends on a non-ASCII answer, the lemma names it as a precondition. Examples are `SeparatorsNotAlphabetic` in `TokenStream.IsIdentIffSingleIdent`, and NEXT LINE not being alphabetic in `Lexer.LineBreakIsUnknown`.
- Iterator laziness (`std::iter::from_fn`) is not modelled: `Scanner.Tokenize` drains the iterator into a sequence. Each call of the closure is `Scanner.Cursor.Next`. Borrowing and lifetimes have no counterpart.
- The input is read as a sequence of `char`, and token lengths are counted in characters. `Token.len` is whatever `len_consumed` of `src/cursor.rs` returns. If that cursor counts UTF-8 bytes, then tokens containing non-ASCII characters are longer than modelled, and `TokensCover` sums to the byte length. For example, `Scenarios.IdentBeforeEmoji` would end with `Unknown 4` (U+1F600 is four bytes), and `Scenarios.NextLineIsUnknown` would give `Unknown 2`.
- Token lengths are `nat` rather than `usize`. A length never exceeds the input length, so overflow cannot arise.
- `is_newline` has no caller in `src/lib.rs`. It is modelled as `Lexer.IsNewline` and used only in lemmas about line breaks.
- The `Debug` formatting of tokens and the `expect_test` harness in `src/tests.rs` are left out. Only the expected token sequence is kept, as `Scenarios.Namespace`.
