/** The stateful half of the tokenizer: the cursor over the input (the file
    `src/cursor.rs` is not part of this model, so its primitives are modelled from how
    `src/lib.rs` uses them), the `impl Cursor` block of `src/lib.rs`
    (`advance_token`, `whitespace`, `ident`), and the `tokenize` loop. Each method is
    proved to compute what the reference functions of module Lexer define. */
module Scanner {
  import opened Unicode
  import opened Lexer

  datatype Option<T> = None | Some(value: T)

  /** What `first` reports once the input is exhausted: the NUL character. It is
      ASCII, so it never turns an identifier into an invalid one. */
  const EofChar: char := '\0'

  /** A forward-only cursor over an immutable text. `pos` is the number of characters
      eaten so far; `consumed` the number eaten since the last reset. */
  class Cursor {
    const input: seq<char>
    var pos: nat
    var consumed: nat

    ghost predicate Valid()
      reads this
    {
      consumed <= pos <= |input|
    }

    /** The characters not yet eaten. */
    function Rest(): seq<char>
      reads this
      requires Valid()
    {
      input[pos..]
    }

    constructor (input: seq<char>)
      ensures Valid()
      ensures this.input == input && Rest() == input && consumed == 0
    {
      this.input := input;
      pos := 0;
      consumed := 0;
    }

    function IsEof(): (b: bool)
      reads this
      requires Valid()
      ensures b <==> Rest() == []
    {
      pos == |input|
    }

    /** Peeks at the next character without eating it. */
    function First(): (c: char)
      reads this
      requires Valid()
      ensures Rest() == [] ==> c == EofChar
      ensures Rest() != [] ==> c == Rest()[0]
    {
      if pos < |input| then input[pos] else EofChar
    }

    function LenConsumed(): (n: nat)
      reads this
      requires Valid()
      ensures n <= |input| - |Rest()|
    {
      consumed
    }

    method ResetLenConsumed()
      requires Valid()
      modifies this
      ensures Valid() && pos == old(pos) && consumed == 0
    {
      consumed := 0;
    }

    /** Eats one character and returns it, or returns `None` at the end of input. */
    method Eat() returns (c: Option<char>)
      requires Valid()
      modifies this
      ensures Valid()
      ensures old(Rest()) == [] ==> c == None && pos == old(pos) && consumed == old(consumed)
      ensures old(Rest()) != [] ==>
        c == Some(old(Rest())[0]) && pos == old(pos) + 1 && consumed == old(consumed) + 1
    {
      if pos < |input| {
        c := Some(input[pos]);
        pos := pos + 1;
        consumed := consumed + 1;
      } else {
        c := None;
      }
    }

    /** Eats the maximal run of characters satisfying `p`. */
    method EatWhile(p: char -> bool)
      requires Valid()
      modifies this
      ensures Valid()
      ensures pos == old(pos) + RunLength(p, old(Rest()))
      ensures consumed == old(consumed) + RunLength(p, old(Rest()))
    {
      ghost var start, rest := pos, Rest();
      while !IsEof() && p(First())
        invariant Valid() && start <= pos
        invariant consumed == old(consumed) + (pos - start)
        invariant rest == input[start..]
        invariant forall i :: 0 <= i < pos - start ==> p(rest[i])
        decreases |input| - pos
      {
        var _ := Eat();
      }
      RunLengthUnique(p, rest, pos - start);
    }

    /** Eats the rest of a whitespace run whose first character is already eaten. */
    method Whitespace() returns (kind: TokenKind)
      requires Valid()
      modifies this
      ensures Valid() && kind == TokenKind.Whitespace
      ensures pos == old(pos) + RunLength(IsWhitespace, old(Rest()))
      ensures consumed == old(consumed) + RunLength(IsWhitespace, old(Rest()))
    {
      EatWhile(IsWhitespace);
      kind := TokenKind.Whitespace;
    }

    /** Eats the rest of an identifier whose first character is already eaten, then
        peeks at the character after it: a non-ASCII emoji there marks the identifier
        invalid. */
    method Ident(u: Tables) returns (kind: TokenKind)
      requires Valid()
      modifies this
      ensures Valid()
      ensures pos == old(pos) + RunLength(IdContinue(u), old(Rest()))
      ensures consumed == old(consumed) + RunLength(IdContinue(u), old(Rest()))
      ensures kind == (if pos < |input| && !IsAscii(input[pos]) && IsEmoji(u, input[pos])
                       then InvalidIdent else TokenKind.Ident)
    {
      EatWhile(IdContinue(u));
      var c := First();
      if !IsAscii(c) && IsEmoji(u, c) {
        kind := InvalidIdent;
      } else {
        kind := TokenKind.Ident;
      }
    }

    /** Scans one token starting at the current position. The length reported is the
        counter since the last reset, which the caller resets first. */
    method AdvanceToken(u: Tables) returns (t: Token)
      requires Valid() && Rest() != []
      modifies this
      ensures Valid()
      ensures t.kind == LexToken(u, old(Rest())).kind
      ensures t.len == old(consumed) + LexToken(u, old(Rest())).len
      ensures pos == old(pos) + LexToken(u, old(Rest())).len
      ensures consumed == t.len
    {
      var first := Eat();
      var c := first.value;
      var kind;
      if IsWhitespace(c) {
        kind := Whitespace();
      } else if IsIdStart(u, c) {
        kind := Ident(u);
      } else if c == '.' {
        kind := Dot;
      } else {
        kind := Unknown;
      }
      t := Token(kind, LenConsumed());
    }

    /** The body of the closure `tokenize` hands to `std::iter::from_fn`: `None` at the
        end of input, otherwise reset the counter and scan one token. */
    method Next(u: Tables) returns (t: Option<Token>)
      requires Valid()
      modifies this
      ensures Valid()
      ensures old(Rest()) == [] ==> t == None && pos == old(pos) && consumed == old(consumed)
      ensures old(Rest()) != [] ==>
        && t == Some(LexToken(u, old(Rest())))
        && Rest() == old(Rest())[t.value.len..]
        && consumed == t.value.len
    {
      if IsEof() {
        t := None;
      } else {
        ResetLenConsumed();
        var token := AdvanceToken(u);
        t := Some(token);
      }
    }
  }

  /** `tokenize` with its iterator drained into a sequence: `next` is called until it
      reports the end. */
  method Tokenize(u: Tables, input: seq<char>) returns (ts: seq<Token>)
    ensures ts == Tokens(u, input)
  {
    var cursor := new Cursor(input);
    ts := [];
    StreamStart(u, input);
    while true
      invariant cursor.Valid()
      invariant ts + Tokens(u, cursor.Rest()) == Tokens(u, input)
      decreases |cursor.Rest()|
    {
      ghost var s := cursor.Rest();
      var next := cursor.Next(u);
      if next.None? {
        StreamEnd(u, input, ts, s);
        return;
      }
      StreamStep(u, input, ts, s, next.value, cursor.Rest());
      ts := ts + [next.value];
    }
  }

  /** The loop invariant of `Tokenize` holds before the first token, ... */
  lemma StreamStart(u: Tables, input: seq<char>)
    ensures [] + Tokens(u, input) == Tokens(u, input)
  {
    assert [] + Tokens(u, input) == Tokens(u, input);
  }

  /** ... it is kept by one more token ... */
  lemma StreamStep(u: Tables, input: seq<char>, ts: seq<Token>, s: seq<char>, t: Token, r: seq<char>)
    requires ts + Tokens(u, s) == Tokens(u, input)
    requires s != [] && t == LexToken(u, s) && r == s[t.len..]
    ensures (ts + [t]) + Tokens(u, r) == Tokens(u, input)
  {
    TokensStep(u, s, t, r);
    assert (ts + [t]) + Tokens(u, r) == ts + ([t] + Tokens(u, r));
  }

  /** ... and at the end of the input the tokens collected are the whole stream. */
  lemma StreamEnd(u: Tables, input: seq<char>, ts: seq<Token>, s: seq<char>)
    requires ts + Tokens(u, s) == Tokens(u, input) && s == []
    ensures ts == Tokens(u, input)
  {
    assert ts + Tokens(u, s) == ts;
  }
}
