/** Stand-ins for the Unicode property tests the tokenizer calls into:
    Rust's `char::is_alphabetic`, `char::is_numeric` (through `char::is_alphanumeric`)
    and the emoji test of the `unic_emoji_char` crate.

    The tables themselves are not modelled. A `Tables` value supplies an arbitrary
    answer for every character outside ASCII; inside ASCII the alphabetic and numeric
    answers are the fixed ones Rust gives (letters, digits). The emoji answer is left
    open on every character, ASCII included: the real emoji property does hold of some
    ASCII characters ('#', '*', the digits), which is why the tokenizer tests
    `is_ascii` before asking it. */
module Unicode {

  datatype Tables = Tables(alphabetic: char -> bool, numeric: char -> bool, emoji: char -> bool)

  predicate IsAscii(c: char) {
    c <= '\U{7F}'
  }

  predicate IsAsciiLetter(c: char) {
    'a' <= c <= 'z' || 'A' <= c <= 'Z'
  }

  predicate IsAsciiDigit(c: char) {
    '0' <= c <= '9'
  }

  /** `char::is_alphabetic`. */
  predicate IsAlphabetic(u: Tables, c: char) {
    if IsAscii(c) then IsAsciiLetter(c) else u.alphabetic(c)
  }

  /** `char::is_numeric`. */
  predicate IsNumeric(u: Tables, c: char) {
    if IsAscii(c) then IsAsciiDigit(c) else u.numeric(c)
  }

  /** `char::is_alphanumeric`, which Rust defines as alphabetic or numeric. */
  predicate IsAlphanumeric(u: Tables, c: char) {
    IsAlphabetic(u, c) || IsNumeric(u, c)
  }

  /** `unic_emoji_char::is_emoji`. */
  predicate IsEmoji(u: Tables, c: char) {
    u.emoji(c)
  }

  /** What the real Unicode tables say of the four non-ASCII characters the tokenizer
      treats as whitespace: LEFT-TO-RIGHT MARK and RIGHT-TO-LEFT MARK (format
      characters), LINE SEPARATOR and PARAGRAPH SEPARATOR are not alphabetic. */
  predicate SeparatorsNotAlphabetic(u: Tables) {
    !u.alphabetic('\U{200E}') && !u.alphabetic('\U{200F}') &&
    !u.alphabetic('\U{2028}') && !u.alphabetic('\U{2029}')
  }
}
