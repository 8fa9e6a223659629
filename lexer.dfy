/** The Gelox lexer: a single-pass scanner over an immutable byte string.
    The pure part (character classes, the byte at a cursor, maximal runs and
    the one-token step `Next`) specifies the `Lexer` class, whose methods
    move the cursors in place. */
module Lexing {
  import opened Tokens

  /** A byte of the input, written as the character with the same code. */
  type Byte = c: char | c as int < 256

  /** The byte the cursors report past the end of the input. */
  const NUL: char := 0 as char

  predicate IsLetter(c: char) {
    'a' <= c <= 'z' || 'A' <= c <= 'Z' || c == '_'
  }

  predicate IsDigit(c: char) {
    '0' <= c <= '9'
  }

  predicate IsWhitespace(c: char) {
    c == ' ' || c == '\t' || c == '\n' || c == '\r'
  }

  /** A one-character token: its literal is the character converted to a
      string (code-point level). */
  function NewToken(kind: TokenType, c: char): Token {
    Token(kind, [c])
  }

  /** The byte at index `i`, or NUL at and past the end. */
  function CharAt(input: seq<char>, i: nat): (c: char)
    ensures i < |input| ==> c == input[i]
    ensures |input| <= i ==> c == NUL
  {
    if |input| <= i then NUL else input[i]
  }

  /** The end of the maximal run of `inClass` characters starting at `pos`. */
  function RunEnd(input: seq<char>, pos: nat, inClass: char -> bool): (r: nat)
    requires !inClass(NUL)
    ensures pos <= r
    ensures r == pos || r <= |input|
    ensures !inClass(CharAt(input, r))
    decreases |input| - pos
  {
    if inClass(CharAt(input, pos)) then RunEnd(input, pos + 1, inClass) else pos
  }

  /** Every character of the run lies inside the input and is in the class. */
  lemma {:induction false} RunEndInClass(input: seq<char>, pos: nat, inClass: char -> bool)
    requires !inClass(NUL)
    ensures forall i :: pos <= i < RunEnd(input, pos, inClass) ==> i < |input| && inClass(input[i])
    decreases |input| - pos
  {
    if inClass(CharAt(input, pos)) {
      RunEndInClass(input, pos + 1, inClass);
    } else {
      assert RunEnd(input, pos, inClass) == pos;
    }
  }

  /** Classifies the token that starts at index `s` (no whitespace is
      skipped here) and returns it with the index just after it. */
  function Scan(input: seq<char>, s: nat): (Token, nat) {
    var c := CharAt(input, s);
    match c
    case '=' =>
      if CharAt(input, s + 1) == '=' then
        if CharAt(input, s + 2) == '=' then (Token(STR_EQ, "==="), s + 3)
        else (Token(EQ, "=="), s + 2)
      else (Token(ASSIGN, "="), s + 1)
    case '+' => (NewToken(PLUS, c), s + 1)
    case '-' => (NewToken(MINUS, c), s + 1)
    case '!' =>
      if CharAt(input, s + 1) == '=' then
        if CharAt(input, s + 2) == '=' then (Token(STR_NEQ, "!=="), s + 3)
        else (Token(NEQ, "!="), s + 2)
      else (Token(BANG, "!"), s + 1)
    case '/' => (NewToken(SLASH, c), s + 1)
    case '*' => (NewToken(ASTERISK, c), s + 1)
    case '<' => (NewToken(LT, c), s + 1)
    case '>' => (NewToken(GT, c), s + 1)
    case ',' => (NewToken(COMMA, c), s + 1)
    case ';' => (NewToken(SEMICOLON, c), s + 1)
    case '(' => (NewToken(LPAREN, c), s + 1)
    case ')' => (NewToken(RPAREN, c), s + 1)
    case '{' => (NewToken(LBRACE, c), s + 1)
    case '}' => (NewToken(RBRACE, c), s + 1)
    case '\0' => (Token(EOF, ""), s + 1)
    case _ =>
      if IsLetter(c) then IdentifierToken(input, s, s)
      else if IsDigit(c) then NumberToken(input, s, s)
      else (NewToken(ILLEGAL, c), s + 1)
  }

  /** The identifier or keyword token that starts at `s`, read up to `i`
      so far: the cursor moves while it is on a letter, then the run is
      looked up in the keyword table. This is the letter run of `RunEnd`
      (`IdentifierTokenRun` proves it), kept recursive so that unfolding
      `Scan` does not also unfold the run and the keyword lookup. */
  function IdentifierToken(input: seq<char>, s: nat, i: nat): (r: (Token, nat))
    requires s <= i <= |input|
    ensures i <= r.1 <= |input| && r.0.literal == input[s..r.1]
    ensures r.0.kind.IDENT? || IsKeyword(r.0.kind)
    decreases |input| - i
  {
    if IsLetter(CharAt(input, i)) then IdentifierToken(input, s, i + 1)
    else (Token(LookupIdent(input[s..i]), input[s..i]), i)
  }

  /** The number token that starts at `s`, read up to `i` so far: the
      cursor moves while it is on a digit. This is the digit run of
      `RunEnd` (`NumberTokenRun` proves it), kept recursive for the same
      reason as `IdentifierToken`. */
  function NumberToken(input: seq<char>, s: nat, i: nat): (r: (Token, nat))
    requires s <= i <= |input|
    ensures i <= r.1 <= |input| && r.0.literal == input[s..r.1]
    ensures r.0.kind.DOUBLE?
    decreases |input| - i
  {
    if IsDigit(CharAt(input, i)) then NumberToken(input, s, i + 1)
    else (Token(DOUBLE, input[s..i]), i)
  }

  /** An identifier scan ends where the run of letters from `i` ends, and its
      literal is the whole run from `s`, looked up as a keyword. */
  lemma {:induction false} IdentifierTokenRun(input: seq<char>, s: nat, i: nat)
    requires s <= i <= |input|
    ensures var e := RunEnd(input, i, IsLetter);
      s <= e <= |input| &&
      IdentifierToken(input, s, i) == (Token(LookupIdent(input[s..e]), input[s..e]), e)
    decreases |input| - i
  {
    if IsLetter(CharAt(input, i)) {
      IdentifierTokenRun(input, s, i + 1);
    }
  }

  /** A number scan ends where the run of digits from `i` ends, and its
      literal is the whole run from `s`. */
  lemma {:induction false} NumberTokenRun(input: seq<char>, s: nat, i: nat)
    requires s <= i <= |input|
    ensures var e := RunEnd(input, i, IsDigit);
      s <= e <= |input| && NumberToken(input, s, i) == (Token(DOUBLE, input[s..e]), e)
    decreases |input| - i
  {
    if IsDigit(CharAt(input, i)) {
      NumberTokenRun(input, s, i + 1);
    }
  }

  /** One call of the lexer from cursor `pos`: skip whitespace, then scan.
      Every call moves the cursor forward, and never more than one step
      past the end of the input; the two reserved kinds never occur. */
  function Next(input: seq<char>, pos: nat): (r: (Token, nat))
    ensures pos < r.1
    ensures r.1 <= (if pos < |input| then |input| else pos) + 1
    ensures r.0.kind != BIGINT && r.0.kind != REMAINDER
  {
    Scan(input, RunEnd(input, pos, IsWhitespace))
  }

  /** The lexer state: the input and the three cursors. */
  class Lexer {
    const input: seq<Byte>
    var position: nat
    var readPosition: nat
    var ch: char

    /** The cursor invariant: the read cursor is one past the current one,
        and `ch` is the byte at the current cursor (NUL past the end). */
    ghost predicate Valid()
      reads this
    {
      readPosition == position + 1 && ch == CharAt(input, position)
    }

    /** Creates a lexer over `input` and loads its first byte. */
    constructor New(input: seq<Byte>)
      ensures this.input == input
      ensures Valid() && position == 0
    {
      this.input := input;
      position, readPosition, ch := 0, 0, NUL;
      new;
      ReadChar();
    }

    /** Loads the byte at the read cursor and advances both cursors by one;
        past the end it loads NUL and the cursors keep growing. */
    method ReadChar()
      modifies this
      ensures position == old(readPosition)
      ensures readPosition == old(readPosition) + 1
      ensures ch == CharAt(input, old(readPosition))
      ensures Valid()
    {
      if |input| <= readPosition {
        ch := NUL;
      } else {
        ch := input[readPosition];
      }
      position := readPosition;
      readPosition := readPosition + 1;
    }

    /** The byte `offset` places after the read cursor, or NUL past the end;
        nothing changes. */
    function PeekCharAt(offset: nat): (c: char)
      reads this
      ensures Valid() ==> c == CharAt(input, position + 1 + offset)
    {
      var target := readPosition + offset;
      if |input| <= target then NUL else input[target]
    }

    /** The byte just after the current one. */
    function PeekNextChar(): (c: char)
      reads this
      ensures Valid() ==> c == CharAt(input, position + 1)
    {
      PeekCharAt(0)
    }

    /** The byte two places after the current one. */
    function PeekNextNextChar(): (c: char)
      reads this
      ensures Valid() ==> c == CharAt(input, position + 2)
    {
      PeekCharAt(1)
    }

    /** Moves past a maximal run of space, tab, newline and carriage return. */
    method SkipWhitespace()
      requires Valid()
      modifies this
      ensures Valid()
      ensures position == RunEnd(input, old(position), IsWhitespace)
    {
      while ch == ' ' || ch == '\t' || ch == '\n' || ch == '\r'
        invariant Valid() && old(position) <= position
        invariant RunEnd(input, position, IsWhitespace) == RunEnd(input, old(position), IsWhitespace)
        decreases |input| - position
      {
        ReadChar();
      }
    }

    /** Consumes a maximal run of letters and returns it; the cursor stops on
        the first byte that is not a letter. */
    method ReadIdentifier() returns (lit: string)
      requires Valid() && position <= |input|
      modifies this
      ensures Valid()
      ensures position == RunEnd(input, old(position), IsLetter)
      ensures lit == input[old(position)..position]
    {
      var start := position;
      while IsLetter(ch)
        invariant Valid() && start <= position <= |input|
        invariant RunEnd(input, position, IsLetter) == RunEnd(input, start, IsLetter)
        decreases |input| - position
      {
        ReadChar();
      }
      lit := input[start..position];
    }

    /** Consumes a maximal run of digits and returns it; the cursor stops on
        the first byte that is not a digit. */
    method ReadNumber() returns (lit: string)
      requires Valid() && position <= |input|
      modifies this
      ensures Valid()
      ensures position == RunEnd(input, old(position), IsDigit)
      ensures lit == input[old(position)..position]
    {
      var start := position;
      while IsDigit(ch)
        invariant Valid() && start <= position <= |input|
        invariant RunEnd(input, position, IsDigit) == RunEnd(input, start, IsDigit)
        decreases |input| - position
      {
        ReadChar();
      }
      lit := input[start..position];
    }

    /** The rule shared by `=` and `!`: with two bytes of lookahead, the
        three-byte operator when both are `=`, the two-byte one when only
        the first is, else the one-byte one. The cursor is left on the
        operator's last byte; the literal is read byte by byte. */
    method ReadOperator(single: TokenType, double: TokenType, triple: TokenType) returns (tok: Token)
      requires Valid()
      modifies this
      ensures Valid()
      ensures var c, p := old(ch), old(position);
        if CharAt(input, p + 1) == '=' && CharAt(input, p + 2) == '=' then
          tok == Token(triple, [c, '=', '=']) && position == p + 2
        else if CharAt(input, p + 1) == '=' then
          tok == Token(double, [c, '=']) && position == p + 1
        else
          tok == NewToken(single, c) && position == p
    {
      if PeekNextChar() == '=' {
        if PeekNextNextChar() == '=' {
          var c := ch;
          ReadChar();
          var nc := ch;
          ReadChar();
          tok := Token(triple, [c] + [nc] + [ch]);
        } else {
          var c := ch;
          ReadChar();
          tok := Token(double, [c] + [ch]);
        }
      } else {
        tok := NewToken(single, ch);
      }
    }

    /** Produces the next token and advances the cursors, exactly as `Next`
        describes: same token, same new cursor. */
    method NextToken() returns (tok: Token)
      requires Valid()
      modifies this
      ensures Valid()
      ensures (tok, position) == Next(input, old(position))
    {
      SkipWhitespace();
      ghost var s := position;
      assert Next(input, old(position)) == Scan(input, s);
      match ch {
        case '=' => tok := ReadOperator(ASSIGN, EQ, STR_EQ);
        case '+' => tok := NewToken(PLUS, ch);
        case '-' => tok := NewToken(MINUS, ch);
        case '!' => tok := ReadOperator(BANG, NEQ, STR_NEQ);
        case '/' => tok := NewToken(SLASH, ch);
        case '*' => tok := NewToken(ASTERISK, ch);
        case '<' => tok := NewToken(LT, ch);
        case '>' => tok := NewToken(GT, ch);
        case ',' => tok := NewToken(COMMA, ch);
        case ';' => tok := NewToken(SEMICOLON, ch);
        case '(' => tok := NewToken(LPAREN, ch);
        case ')' => tok := NewToken(RPAREN, ch);
        case '{' => tok := NewToken(LBRACE, ch);
        case '}' => tok := NewToken(RBRACE, ch);
        case '\0' => tok := Token(EOF, "");
        case _ =>
          if IsLetter(ch) {
            var lit := ReadIdentifier();
            tok := Token(LookupIdent(lit), lit);
            IdentifierTokenRun(input, s, s);
            assert Scan(input, s) == (tok, position);
            return;
          } else if IsDigit(ch) {
            var lit := ReadNumber();
            tok := Token(DOUBLE, lit);
            NumberTokenRun(input, s, s);
            assert Scan(input, s) == (tok, position);
            return;
          } else {
            tok := NewToken(ILLEGAL, ch);
          }
      }
      assert Scan(input, s) == (tok, position + 1);
      ReadChar();
    }
  }
}
