# Gelox lexer

A model of the lexer of Gelox, a small interpreted language. The model covers the token vocabulary (`token/token.go`) and the lexer
(`lexer/lexer.go`). The lexer is a single-pass, byte-oriented scanner with
three cursors over an immutable input string. Each call of `NextToken` skips
whitespace, then classifies the token at the cursor: an operator or delimiter
(with two bytes of lookahead after `=` and `!`), a word (keyword or
identifier), a run of digits, EOF at a NUL byte or past the end, or ILLEGAL
for any other single byte.

The project has four files.

- `token.dfy`, module `Tokens`:
  - the 31 token kinds, with the string value each kind's constant has;
  - the keyword table (`Keywords`);
  - the identifier classifier `LookupIdent`.
- `lexer.dfy`, module `Lexing`:
  - the pure specification of one call, `Next` = skip the whitespace run
    (`RunEnd`), then classify (`Scan`);
  - the `Lexer` class with the source's fields and methods. They move the
    cursors in place and are proved against `Next`. `NextToken` returns
    exactly `Next`'s token and leaves the cursor where `Next` says.
- `lexer_props.dfy`, modules `LexingProperties` and `LexingComposition`:
  - what one call promises: where classification starts, which byte class
    gives which token, longest match for operators, and literals that are
    slices of the input (at the code-point level; see `Lexing.NewToken`
    under "Left out");
  - what a driver that keeps calling `NextToken` (a parser, the REPL, the
    test) receives: `Lex` is the first `n` tokens and `PosAfter` the cursor
    after them;
  - locality: a token depends only on the text it spans and the byte after
    it;
  - `LexConcat`: the stream of a concatenation is assembled from the streams
    of its pieces.
  - whitespace transparency (`LexWhitespaceRuns`): one non-empty run of
    whitespace may be replaced by any other non-empty run without changing
    the token stream.
- `lexer_test.dfy`, module `LexingTests`: the table-driven lexer test, with
  its input, its 83 expected tokens and the test loop itself
  (`TestNextToken`).
  - The proof that the loop passes works line by line. A long line is cut
    after whitespace into pieces, so no piece splits a token.
  - Each call's token comes from a small lemma `LineNNCallKK`. `TraceLex`
    turns a line's calls into its token stream (`LexLineNN`).
  - `LexConcat` joins the lines from the last one up (`LexTailNN`).
    `LexTestInput` is the whole input.

Go strings are byte strings. The model writes a byte as the `char` with the
same code (`Lexing.Byte` is a `char` below 256). A one-byte literal
`string(ch)` is modelled as the one-character string `[ch]`, so the model
works at the code-point level throughout.

## Model

| member | source | states |
|---|---|---|
| Tokens.Spelling | token/token.go:15-160 | definition: the string value of each kind's constant, which is also the datatype `Tokens.TokenType`'s list of kinds. Its properties are stated by `KindNamedSpelling` and `SpellingInjective` |
| Tokens.KindNamedSpelling | token/token.go:15-160 | every kind's constant reads back as that kind: the kinds are identified by their string values |
| Tokens.SpellingInjective | token/token.go:15-160 | no two kinds share a string value |
| Tokens.LookupIdent | token/token.go:173-181 | the result is IDENT or a keyword kind; a keyword kind only for its exact reserved spelling; IDENT exactly when the text is no reserved spelling |
| Tokens.LookupKeyword | token/token.go:162-171 | each of the seven entries of the keyword table `Tokens.Keywords` classifies as its own keyword kind |
| Tokens.LookupIdentInjective | token/token.go:162-171 | two texts that classify as the same keyword kind are the same text |
| Tokens.LookupIdentExamples | token/token.go:176-181 | the lookup is exact and case-sensitive: "", "Let", "x" and "function1" are identifiers |
| Lexing.CharAt | lexer/lexer.go:127-135 | definition: the byte at an index inside the input, and NUL at or past its end. `Lexer.Valid`, `ReadChar` and `PeekCharAt` are proved against it |
| Lexing.IsLetter | lexer/lexer.go:153-156 | definition: `a`-`z`, `A`-`Z` and `_`. Digits are not letters, so a word ends at a digit (`LexingTests.LexFunction1`) |
| Lexing.IsDigit | lexer/lexer.go:158-161 | definition: `0`-`9`. A decimal point is not a digit (`LexingProperties.ScanNumber`) |
| Lexing.IsWhitespace | lexer/lexer.go:146-151 | definition: the four bytes the loop of `skipWhitespace` skips. Their properties are stated by `LexingProperties.NextStartsAfterWhitespace` and `NextSkipsWhitespace` |
| Lexing.NewToken | lexer/lexer.go:119-122 | definition: a one-byte token whose literal is that byte, at the code-point level. Its properties are stated by `LexingProperties.ScanIllegal` and `ScanSingleOperator` |
| Lexing.Scan | lexer/lexer.go:37-116 | definition: the classifying switch of `NextToken`, from the first byte after the whitespace. Its properties are stated by `LexingProperties.ScanEof`, `ScanWord`, `ScanNumber`, `ScanLongestMatch`, `ScanOperatorIsLongest` and `ScanIllegal` |
| Lexing.RunEnd | lexer/lexer.go:147-151 | a maximal run: it starts at the cursor, stays inside the input and ends on a byte outside the class |
| Lexing.RunEndInClass | lexer/lexer.go:138-151 | every byte of a run lies inside the input and belongs to the class |
| Lexing.IdentifierToken | lexer/lexer.go:101-105 | a word token's literal is the input from its start to its end, and its kind is IDENT or a keyword |
| Lexing.NumberToken | lexer/lexer.go:106-109 | a number token is a DOUBLE whose literal is the input from its start to its end |
| Lexing.IdentifierTokenRun | lexer/lexer.go:101-105 | a word ends where the run of letters ends, and its kind is the keyword table's verdict on the whole run |
| Lexing.NumberTokenRun | lexer/lexer.go:106-109 | a number ends where the run of digits ends |
| Lexing.Next | lexer/lexer.go:32-117 | one call moves the cursor forward, at most one past the end of the input, and never yields BIGINT or REMAINDER |
| Lexing.Lexer.New | lexer/lexer.go:24-29 | a new lexer holds the input, with the cursor at 0 and the first byte loaded |
| Lexing.Lexer.ReadChar | lexer/lexer.go:124-135 | loads the byte at the read cursor (NUL past the end) and advances both cursors by one |
| Lexing.Lexer.PeekCharAt | lexer/lexer.go:182-189 | the byte `offset` places after the read cursor, or NUL past the end, without moving |
| Lexing.Lexer.PeekNextChar | lexer/lexer.go:172-175 | the byte after the current one |
| Lexing.Lexer.PeekNextNextChar | lexer/lexer.go:177-180 | the byte two places after the current one |
| Lexing.Lexer.SkipWhitespace | lexer/lexer.go:146-151 | the cursor moves to the end of the whitespace run |
| Lexing.Lexer.ReadIdentifier | lexer/lexer.go:137-144 | the cursor moves to the end of the letter run, and the result is the run |
| Lexing.Lexer.ReadNumber | lexer/lexer.go:163-170 | the cursor moves to the end of the digit run, and the result is the run |
| Lexing.Lexer.ReadOperator | lexer/lexer.go:38-77 | for `=` and `!`: the three-byte operator when both lookahead bytes are `=`, the two-byte one when only the first is, else the one-byte one; the cursor stays on the operator's last byte |
| Lexing.Lexer.NextToken | lexer/lexer.go:31-122 | the token returned and the new cursor are exactly those of `Next` from the old cursor |
| LexingProperties.RunEndUnique | lexer/lexer.go:147-151 | a run of class bytes that ends on a byte outside the class is the run the loop finds |
| LexingProperties.NextStartsAfterWhitespace | lexer/lexer.go:35 | only space, tab, newline and carriage return are skipped before classification |
| LexingProperties.NextSkipsWhitespace | lexer/lexer.go:146-151 | a leading whitespace byte does not change the call's result |
| LexingProperties.ScanEof | lexer/lexer.go:98-100 | EOF with an empty literal exactly at a NUL byte (embedded or past the end), and the cursor moves one past it |
| LexingProperties.ScanWord | lexer/lexer.go:101-105 | a word token exactly when the byte is a letter; then the literal is the maximal letter run, the cursor stops on the next non-letter, and the kind is the keyword lookup of the literal |
| LexingProperties.ScanNumber | lexer/lexer.go:106-109 | a DOUBLE exactly when the byte is a digit; then the literal is the maximal digit run, so `1.5` is not one number |
| LexingProperties.OperatorStartSpelled | lexer/lexer.go:37-97 | the bytes that start an operator are exactly the first bytes of the operator spellings |
| LexingProperties.ScanIllegal | lexer/lexer.go:110-112 | ILLEGAL exactly for a byte no rule claims; its literal is that byte and the cursor moves past it |
| LexingProperties.StartsWithChars | lexer/lexer.go:172-189 | a text that begins the input at a cursor is what the cursor and the two lookahead bytes see |
| LexingProperties.LookaheadSpells | lexer/lexer.go:38-77 | the lookahead bytes `==` / `!=` / `===` / `!==` spell the two- and three-byte operators |
| LexingProperties.ScanLongestMatch | lexer/lexer.go:37-97 | the token is the longest operator spelling that begins the input, and the cursor moves past it |
| LexingProperties.ScanOperatorSpelled | lexer/lexer.go:37-97 | an operator token's literal is its kind's spelling, taken from the input, and the cursor moves past exactly that |
| LexingProperties.ScanOperatorIsLongest | lexer/lexer.go:37-97 | no operator spelling longer than the token's begins the input at the token |
| LexingProperties.ScanSingleOperator | lexer/lexer.go:56-97 | the one-byte operators other than `=` and `!` need no lookahead |
| LexingProperties.ScanLiteralIsSlice | lexer/lexer.go:32-117 | every token but EOF has a non-empty literal that is the input from the token's start to the new cursor. This holds at the code-point level; see `Lexing.NewToken` under "Left out" |
| LexingProperties.NextLiteralIsSlice | lexer/lexer.go:32-117 | the same for one call: the literal is the text just before the new cursor. This holds at the code-point level; see `Lexing.NewToken` under "Left out" |
| LexingProperties.NextAtEnd | lexer/lexer.go:98-100 | at or past the end of the input the call yields EOF "" and the cursor still moves on by one |
| LexingProperties.DriveSplit | lexer/lexer.go:31-32 | a run of `n + m` calls is `n` calls and then `m` more from where they left the cursor |
| LexingProperties.DriveGrows | lexer/lexer.go:31-32 | with a step that always advances, `n` calls advance the cursor by at least `n` |
| LexingProperties.DriveAt | lexer/lexer.go:31-32 | the `i`-th token of a run of calls is the one produced from the cursor after `i` calls |
| LexingProperties.DriveShift | lexer/lexer.go:31-32 | two steps that agree up to a cursor shift produce the same tokens, with shifted cursors |
| LexingProperties.DriveAgree | lexer/lexer.go:31-32 | two steps that agree below a bound produce the same tokens while the cursor stays below it |
| LexingProperties.StepAdvances | lexer/lexer.go:115 | every call moves the cursor forward |
| LexingProperties.PosAfterGrows | lexer/lexer.go:115 | `n` calls move the cursor by at least `n` |
| LexingProperties.LexAt | lexer/lexer.go:31-32 | the `i`-th token a driver receives is the one produced from the cursor after `i` calls |
| LexingProperties.PosAfterNext | lexer/lexer.go:31-32 | one more call appends that call's token to the stream and moves to that call's cursor |
| LexingProperties.EofForever | lexer/lexer.go:98-100 | once the cursor is at or past the end, every further call yields EOF "" |
| LexingProperties.ReachesEof | lexer/lexer.go:98-100 | a driver on a fresh lexer receives EOF by call `|input| + 1` at the latest |
| LexingComposition.RunEndShift | lexer/lexer.go:138-170 | a prefix shifts every maximal run by its length |
| LexingComposition.IdentifierTokenShift | lexer/lexer.go:101-105 | after a prefix, a word scan reads the same token, with its end shifted by the prefix length |
| LexingComposition.NumberTokenShift | lexer/lexer.go:106-109 | after a prefix, a number scan reads the same token, with its end shifted by the prefix length |
| LexingComposition.ScanShift | lexer/lexer.go:37-113 | after a prefix, classification gives the same token, with the cursor shifted |
| LexingComposition.NextShift | lexer/lexer.go:32-117 | after a prefix, a call gives the same token, with the cursor shifted |
| LexingComposition.StepShiftAt | lexer/lexer.go:32-117 | the same, as the driver's step from one cursor |
| LexingComposition.StepShift | lexer/lexer.go:32-117 | the same, as the driver's step from every cursor |
| LexingComposition.LexShift | lexer/lexer.go:32-117 | after a prefix, a run of calls gives the same tokens, with the cursor shifted |
| LexingComposition.RunEndExtend | lexer/lexer.go:138-170 | a run that ends inside the input is unaffected by text appended after it |
| LexingComposition.IdentifierTokenExtend | lexer/lexer.go:101-105 | a word that ends inside the input is unaffected by text appended after it |
| LexingComposition.NumberTokenExtend | lexer/lexer.go:106-109 | a number that ends inside the input is unaffected by text appended after it |
| LexingComposition.ScanExtend | lexer/lexer.go:37-113 | a token that ends inside the input is unaffected by text appended after it: the lookahead never passes the returned cursor |
| LexingComposition.NextExtend | lexer/lexer.go:32-117 | a call whose cursor ends inside the input is unaffected by text appended after it |
| LexingComposition.StepExtendAt | lexer/lexer.go:32-117 | the same, as the driver's step from one cursor |
| LexingComposition.StepExtend | lexer/lexer.go:32-117 | the same, as the driver's step from every cursor |
| LexingComposition.LexExtend | lexer/lexer.go:32-117 | a run of calls that stays inside the input is unaffected by appended text |
| LexingComposition.NextSkipsRun | lexer/lexer.go:146-151 | a call from anywhere inside a whitespace run gives the same token and cursor |
| LexingComposition.LexConcat | lexer/lexer.go:32-117 | the stream of `a + b` is the stream of `a` followed by that of `b`, when `a`'s tokens end inside `a` and only whitespace follows them |
| LexingComposition.LexCursorIrrelevant | lexer/lexer.go:32-117 | two cursors from which the next call agrees give the same stream |
| LexingComposition.LexSkipsRun | lexer/lexer.go:146-151 | calls from anywhere inside a whitespace run give the same stream and end at the same cursor |
| LexingComposition.NextAcrossRuns | lexer/lexer.go:32-117 | on two inputs that differ only in one non-empty whitespace run, a call from corresponding cursors gives the same token and corresponding cursors, unless only whitespace lies between the cursor and that run |
| LexingComposition.LexAcrossRuns | lexer/lexer.go:32-117 | on the same two inputs, runs of calls from corresponding cursors give the same tokens |
| LexingComposition.LexWhitespaceRuns | lexer/lexer.go:146-151 | whitespace transparency: two inputs that differ only in one non-empty whitespace run, replaced by another non-empty run, give the same first `n` tokens |
| LexingTests.TraceLex | lexer/lexer_test.go:123-133 | a driver whose calls from the cursors `cs` return the tokens `ts`, each leaving the cursor where the next call starts, receives exactly `ts` |
| LexingTests.LexFunction1 | lexer/lexer.go:153-161 | `function1` lexes as FUNCTION "function", DOUBLE "1", EOF "", because digits do not continue a word |
| LexingTests.LexTestInput | lexer/lexer_test.go:10-121 | the first 83 calls on the test input return the test's 83 expected tokens, in order, ending with EOF "" |
| LexingTests.TestNextToken | lexer/lexer_test.go:9-134 | the test passes: every call on a fresh lexer over the test input returns the expected kind and literal |

## Left out

- `main.go`, `parser/parser.go` and `ast/ast.go` are not part of this model:
  - `main.go` greets the current user and starts the REPL, which is not part of this model.
  - The parser calls `NextToken` only through `nextToken`, twice in `New` (parser/parser.go:22-23), to fill its current and peek tokens. Its `ParseProgram` returns nil.
  - `ast.go` declares the syntax tree and never calls the lexer.
  - `Lex` and `PosAfter` describe what any caller that keeps calling `NextToken` receives.
- BIGINT and REMAINDER are declared, but no lexing rule produces them (`%` lexes as ILLEGAL). The model declares both and proves that `Next` never yields them.
- The numeric value of a DOUBLE literal is not modelled: the lexer keeps the digit text, and the model does too. No floating point is involved.
- Unicode is not modelled. The source works on bytes, and a multi-byte character lexes as ILLEGAL bytes one at a time. The model's `Byte` is a `char` below 256 with the byte's code.
- Go's `int` cursors are modelled as unbounded `nat`. Past the end of the input every call still moves both cursors on by one (lexer/lexer.go:115, 133-134). After about 2^63 such calls `readPosition` would wrap to a negative value, the bounds test at line 128 would pass, and `l.input[l.readPosition]` at line 131 would panic. `EofForever` holds for any number of calls only because `nat` does not wrap.
- Lexing.NewToken: `string(ch)` of a byte above 127 is, in Go, the UTF-8 encoding of that code point (two bytes). The model's literal is the one character `[ch]`. The lexer only builds such literals for ILLEGAL tokens.
- Lexing.Lexer.ReadOperator: the source writes the `=` and `!` branches out twice; the model shares one method between them, parameterised by the three kinds.
- The source's direct `tok.Literal = ""` / `tok.Type = EOF` assignment is modelled as the token `Token(EOF, "")`.
- Identifiers with digits: the doc comment of IDENT (token/token.go:28) lists `gelox1` as an identifier. `isLetter` (lexer/lexer.go:154-156) excludes digits, so digits never continue a word: `function1` lexes as FUNCTION "function" then DOUBLE "1". The model follows the code (`LexingTests.LexFunction1`).
- Cursors after EOF: `readChar` at lexer/lexer.go:115 runs after EOF too, so each further call moves `position` and `readPosition` on by one; every read past the end yields NUL, so the tokens do not change. `Next` moves the cursor one past its argument at the end (`LexingProperties.NextAtEnd`), and `EofForever` proves the stream stays EOF "".
