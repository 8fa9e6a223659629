/** What the lexer's one-token step promises: where classification starts,
    which class of byte yields which token, longest match for operators,
    literals taken from the input, and that a driver reaches EOF. */
module LexingProperties {
  import opened Tokens
  import opened Lexing

  /** The operator and delimiter kinds that a lexing rule produces
      (REMAINDER is declared but has no rule). */
  predicate IsLexedOperator(k: TokenType) {
    k.ASSIGN? || k.PLUS? || k.MINUS? || k.BANG? || k.ASTERISK? || k.SLASH?
    || k.LT? || k.GT? || k.EQ? || k.NEQ? || k.STR_EQ? || k.STR_NEQ?
    || k.COMMA? || k.SEMICOLON? || k.LPAREN? || k.RPAREN? || k.LBRACE? || k.RBRACE?
  }

  /** `t` is the text of the input from index `s` on. */
  predicate StartsWith(input: seq<char>, s: nat, t: string) {
    s <= |input| && t <= input[s..]
  }

  /** A run of `inClass` characters that ends on a character outside the
      class is the one `RunEnd` finds. */
  lemma {:induction false} RunEndUnique(input: seq<char>, pos: nat, e: nat, inClass: char -> bool)
    requires !inClass(NUL)
    requires pos <= e
    requires forall i :: pos <= i < e ==> inClass(CharAt(input, i))
    requires !inClass(CharAt(input, e))
    ensures RunEnd(input, pos, inClass) == e
    decreases e - pos
  {
    if pos < e {
      assert inClass(CharAt(input, pos));
      RunEndUnique(input, pos + 1, e, inClass);
    }
  }

  /** Only space, tab, newline and carriage return are skipped: the token
      is classified from the first byte after them that is not one of these. */
  lemma NextStartsAfterWhitespace(input: seq<char>, pos: nat, s: nat)
    requires pos <= s
    requires forall i :: pos <= i < s ==> IsWhitespace(CharAt(input, i))
    requires !IsWhitespace(CharAt(input, s))
    ensures Next(input, pos) == Scan(input, s)
  {
    RunEndUnique(input, pos, s, IsWhitespace);
  }

  /** A leading whitespace byte makes no difference to the token produced. */
  lemma NextSkipsWhitespace(input: seq<char>, pos: nat)
    requires IsWhitespace(CharAt(input, pos))
    ensures Next(input, pos) == Next(input, pos + 1)
  {
  }

  /** A NUL byte, at the end of the input or embedded in it, and only a NUL
      byte, yields EOF with an empty literal; the cursor moves one past it. */
  lemma ScanEof(input: seq<char>, s: nat)
    ensures Scan(input, s).0.kind == EOF <==> CharAt(input, s) == NUL
    ensures CharAt(input, s) == NUL ==> Scan(input, s) == (Token(EOF, ""), s + 1)
  {
  }

  /** A letter starts a word: the maximal run of letters is the literal,
      its kind is what the keyword table says, and the cursor stops on the
      first byte after the run. Digits end the run. */
  lemma ScanWord(input: seq<char>, s: nat)
    ensures var (t, q) := Scan(input, s);
      (t.kind.IDENT? || IsKeyword(t.kind)) <==> IsLetter(CharAt(input, s))
    ensures var (t, q) := Scan(input, s);
      IsLetter(CharAt(input, s)) ==>
        s < q <= |input| && t.literal == input[s..q]
        && (forall i :: s <= i < q ==> IsLetter(input[i]))
        && !IsLetter(CharAt(input, q))
        && t.kind == LookupIdent(t.literal)
  {
    if IsLetter(CharAt(input, s)) {
      IdentifierTokenRun(input, s, s);
      RunEndInClass(input, s, IsLetter);
    }
  }

  /** A digit starts a number: the maximal run of digits is a DOUBLE whose
      literal is that run; a decimal point ends it. */
  lemma ScanNumber(input: seq<char>, s: nat)
    ensures var (t, q) := Scan(input, s);
      t.kind.DOUBLE? <==> IsDigit(CharAt(input, s))
    ensures var (t, q) := Scan(input, s);
      IsDigit(CharAt(input, s)) ==>
        s < q <= |input| && t.literal == input[s..q]
        && (forall i :: s <= i < q ==> IsDigit(input[i]))
        && !IsDigit(CharAt(input, q))
  {
    if IsDigit(CharAt(input, s)) {
      NumberTokenRun(input, s, s);
      RunEndInClass(input, s, IsDigit);
    }
  }

  /** The bytes an operator or delimiter spelling begins with. */
  predicate IsOperatorStart(c: char) {
    c == '=' || c == '+' || c == '-' || c == '!' || c == '/' || c == '*' || c == '<' || c == '>'
    || c == ',' || c == ';' || c == '(' || c == ')' || c == '{' || c == '}'
  }

  /** The operator starts are exactly the first bytes of the lexed operator
      spellings. */
  lemma OperatorStartSpelled(c: char)
    ensures !IsOperatorStart(c) <==> forall k :: IsLexedOperator(k) ==> Spelling(k)[0] != c
  {
    if IsOperatorStart(c) {
      var k :=
        if c == '=' then ASSIGN else if c == '+' then PLUS else if c == '-' then MINUS
        else if c == '!' then BANG else if c == '/' then SLASH else if c == '*' then ASTERISK
        else if c == '<' then LT else if c == '>' then GT else if c == ',' then COMMA
        else if c == ';' then SEMICOLON else if c == '(' then LPAREN else if c == ')' then RPAREN
        else if c == '{' then LBRACE else RBRACE;
      assert IsLexedOperator(k) && Spelling(k)[0] == c;
    }
  }

  /** A byte that no rule claims: not NUL, not a letter, not a digit and
      not the first byte of an operator. */
  predicate Unclaimed(c: char) {
    c != NUL && !IsLetter(c) && !IsDigit(c) && !IsOperatorStart(c)
  }

  /** An ILLEGAL token comes only from an unclaimed byte, and every unclaimed
      byte yields an ILLEGAL token; its literal is that one byte and the
      cursor moves past it. */
  lemma ScanIllegal(input: seq<char>, s: nat)
    ensures Scan(input, s).0.kind.ILLEGAL? <==> Unclaimed(CharAt(input, s))
    ensures Unclaimed(CharAt(input, s)) ==>
      Scan(input, s) == (NewToken(ILLEGAL, CharAt(input, s)), s + 1)
  {
  }

  /** The characters of a text that begins the input at `s`. */
  lemma StartsWithChars(input: seq<char>, s: nat, t: string)
    requires StartsWith(input, s, t)
    ensures 0 < |t| ==> CharAt(input, s) == t[0]
    ensures 1 < |t| ==> CharAt(input, s + 1) == t[1]
    ensures 2 < |t| ==> CharAt(input, s + 2) == t[2]
  {
    if 0 < |t| { assert input[s..][0] == t[0]; }
    if 1 < |t| { assert input[s..][1] == t[1]; }
    if 2 < |t| { assert input[s..][2] == t[2]; }
  }

  /** The two- and three-byte operator spellings that the lookahead bytes
      spell out. */
  lemma LookaheadSpells(input: seq<char>, s: nat)
    ensures CharAt(input, s) == '=' && CharAt(input, s + 1) == '=' ==>
      StartsWith(input, s, Spelling(EQ))
    ensures CharAt(input, s) == '!' && CharAt(input, s + 1) == '=' ==>
      StartsWith(input, s, Spelling(NEQ))
    ensures CharAt(input, s) == '=' && CharAt(input, s + 1) == '=' && CharAt(input, s + 2) == '=' ==>
      StartsWith(input, s, Spelling(STR_EQ))
    ensures CharAt(input, s) == '!' && CharAt(input, s + 1) == '=' && CharAt(input, s + 2) == '=' ==>
      StartsWith(input, s, Spelling(STR_NEQ))
  {
    if CharAt(input, s) != NUL && CharAt(input, s + 1) != NUL {
      assert input[s..][..2] == [input[s], input[s + 1]];
      if CharAt(input, s + 2) != NUL {
        assert input[s..][..3] == [input[s], input[s + 1], input[s + 2]];
      }
    }
  }

  /** Longest match: when the spelling of a lexed operator kind `k` begins
      the input at `s` and no longer operator spelling does, the token is
      `k` with its spelling as literal, and the cursor moves past it. */
  lemma ScanLongestMatch(input: seq<char>, s: nat, k: TokenType)
    requires IsLexedOperator(k) && StartsWith(input, s, Spelling(k))
    requires forall j :: IsLexedOperator(j) && StartsWith(input, s, Spelling(j)) ==>
      |Spelling(j)| <= |Spelling(k)|
    ensures Scan(input, s) == (Token(k, Spelling(k)), s + |Spelling(k)|)
  {
    StartsWithChars(input, s, Spelling(k));
    LookaheadSpells(input, s);
  }

  /** An operator token carries its kind's spelling, read from the input
      at `s`, and the cursor moves past exactly that spelling. */
  lemma ScanOperatorSpelled(input: seq<char>, s: nat)
    ensures var (t, q) := Scan(input, s);
      IsLexedOperator(t.kind) ==>
        t.literal == Spelling(t.kind)
        && StartsWith(input, s, t.literal)
        && q == s + |t.literal|
  {
    var c := CharAt(input, s);
    if IsOperatorStart(c) {
      assert input[s..][..1] == [c];
      if c == '=' || c == '!' {
        LookaheadSpells(input, s);
      }
    }
  }

  /** The converse of longest match: after an operator token no longer
      operator spelling begins the input where that token began. */
  lemma ScanOperatorIsLongest(input: seq<char>, s: nat, j: TokenType)
    requires IsLexedOperator(j) && StartsWith(input, s, Spelling(j))
    ensures IsLexedOperator(Scan(input, s).0.kind)
    ensures |Spelling(j)| <= |Scan(input, s).0.literal|
  {
    StartsWithChars(input, s, Spelling(j));
  }

  /** A one-byte operator other than `=` and `!` needs no lookahead: it
      yields its kind, the byte as literal, and a one-byte advance. */
  lemma ScanSingleOperator(input: seq<char>, s: nat, k: TokenType)
    requires IsLexedOperator(k) && |Spelling(k)| == 1 && !k.ASSIGN? && !k.BANG?
    requires CharAt(input, s) == Spelling(k)[0]
    ensures Scan(input, s) == (Token(k, Spelling(k)), s + 1)
  {
  }

  /** Every token but EOF is read from the input: its literal is the
      non-empty text from `s` up to the new cursor. */
  lemma ScanLiteralIsSlice(input: seq<char>, s: nat)
    ensures var (t, q) := Scan(input, s);
      t.kind.EOF? ==> t.literal == ""
    ensures var (t, q) := Scan(input, s);
      !t.kind.EOF? ==>
        0 < |t.literal| && q == s + |t.literal| <= |input| && t.literal == input[s..q]
  {
    var c := CharAt(input, s);
    var (t, q) := Scan(input, s);
    if IsLetter(c) {
      assert t == IdentifierToken(input, s, s).0;
    } else if IsDigit(c) {
      assert t == NumberToken(input, s, s).0;
    } else if IsLexedOperator(t.kind) {
      ScanOperatorSpelled(input, s);
      assert input[s..q] == input[s..][..|t.literal|];
    } else if c != NUL {
      assert t.kind.ILLEGAL? && input[s..q] == [c];
    }
  }

  /** Every token but EOF is read from the input: its literal is the text
      just before the new cursor, after the old one, and is not empty. */
  lemma NextLiteralIsSlice(input: seq<char>, pos: nat)
    ensures var (t, q) := Next(input, pos);
      t.kind.EOF? ==> t.literal == ""
    ensures var (t, q) := Next(input, pos);
      !t.kind.EOF? ==>
        0 < |t.literal| && pos + |t.literal| <= q <= |input|
        && t.literal == input[q - |t.literal|..q]
  {
    ScanLiteralIsSlice(input, RunEnd(input, pos, IsWhitespace));
  }

  /** At or past the end of the input the lexer yields EOF "" and the cursor
      still moves on by one. */
  lemma NextAtEnd(input: seq<char>, pos: nat)
    requires |input| <= pos
    ensures Next(input, pos) == (Token(EOF, ""), pos + 1)
  {
  }

  /** The step a driver repeats: one call of the lexer from a cursor. */
  function Step(input: seq<char>): nat -> (Token, nat) {
    p => Next(input, p)
  }

  /** The tokens `n` repetitions of `step` hand to a driver from cursor `pos`. */
  function Drive(step: nat -> (Token, nat), pos: nat, n: nat): (ts: seq<Token>)
    ensures |ts| == n
    decreases n
  {
    if n == 0 then [] else [step(pos).0] + Drive(step, step(pos).1, n - 1)
  }

  /** The cursor after `n` repetitions of `step` from cursor `pos`. */
  function DriveEnd(step: nat -> (Token, nat), pos: nat, n: nat): nat
    decreases n
  {
    if n == 0 then pos else DriveEnd(step, step(pos).1, n - 1)
  }

  /** Splitting a run of repetitions: `n + m` of them are `n` followed by
      `m` from where the first `n` left the cursor. */
  lemma {:induction false} DriveSplit(step: nat -> (Token, nat), pos: nat, n: nat, m: nat)
    ensures Drive(step, pos, n + m) == Drive(step, pos, n) + Drive(step, DriveEnd(step, pos, n), m)
    ensures DriveEnd(step, pos, n + m) == DriveEnd(step, DriveEnd(step, pos, n), m)
    decreases n
  {
    if n > 0 {
      var q := step(pos).1;
      DriveSplit(step, q, n - 1, m);
      assert Drive(step, pos, n + m) == [step(pos).0] + Drive(step, q, n - 1 + m);
    }
  }

  /** The step moves every cursor forward. */
  ghost predicate Advancing(step: nat -> (Token, nat)) {
    forall p: nat :: p < step(p).1
  }

  /** From cursor `k + p`, `outer` does what `inner` does from `p`, with the
      returned cursor shifted by `k`. */
  ghost predicate ShiftedAt(outer: nat -> (Token, nat), inner: nat -> (Token, nat), k: nat, p: nat) {
    outer(k + p) == (inner(p).0, k + inner(p).1)
  }

  /** `outer` is `inner` shifted by `k`, from every cursor. */
  ghost predicate ShiftedBy(outer: nat -> (Token, nat), inner: nat -> (Token, nat), k: nat) {
    forall p: nat :: ShiftedAt(outer, inner, k, p)
  }

  /** If `narrow` returns a cursor before `bound` from `p`, `wide` does what
      `narrow` does from `p`. */
  ghost predicate AgreeAt(wide: nat -> (Token, nat), narrow: nat -> (Token, nat), bound: nat, p: nat) {
    narrow(p).1 < bound ==> wide(p) == narrow(p)
  }

  /** `wide` does what `narrow` does from every cursor from which `narrow`
      returns a cursor before `bound`. */
  ghost predicate AgreeBefore(wide: nat -> (Token, nat), narrow: nat -> (Token, nat), bound: nat) {
    forall p: nat :: AgreeAt(wide, narrow, bound, p)
  }

  /** A step that always advances advances `n` repetitions by at least `n`. */
  lemma {:induction false} DriveGrows(step: nat -> (Token, nat), pos: nat, n: nat)
    requires Advancing(step)
    ensures pos + n <= DriveEnd(step, pos, n)
    decreases n
  {
    if n > 0 {
      DriveGrows(step, step(pos).1, n - 1);
    }
  }

  /** The `i`-th token is the one the step yields from the cursor after `i`
      repetitions. */
  lemma {:induction false} DriveAt(step: nat -> (Token, nat), pos: nat, n: nat, i: nat)
    requires i < n
    ensures Drive(step, pos, n)[i] == step(DriveEnd(step, pos, i)).0
    decreases i
  {
    if i > 0 {
      DriveAt(step, step(pos).1, n - 1, i - 1);
    }
  }

  /** Two steps that agree up to a shift of the cursor by `k` give the same
      tokens, with cursors shifted by `k`. */
  lemma {:induction false} DriveShift(outer: nat -> (Token, nat), inner: nat -> (Token, nat), k: nat, pos: nat, n: nat)
    requires ShiftedBy(outer, inner, k)
    ensures Drive(outer, k + pos, n) == Drive(inner, pos, n)
    ensures DriveEnd(outer, k + pos, n) == k + DriveEnd(inner, pos, n)
    decreases n
  {
    if n > 0 {
      assert ShiftedAt(outer, inner, k, pos);
      DriveShift(outer, inner, k, inner(pos).1, n - 1);
    }
  }

  /** Two steps that agree from every cursor whose step ends before `bound`
      give the same tokens as long as the cursor stays before `bound`. */
  lemma {:induction false} DriveAgree(wide: nat -> (Token, nat), narrow: nat -> (Token, nat), bound: nat, pos: nat, n: nat)
    requires Advancing(narrow)
    requires AgreeBefore(wide, narrow, bound)
    requires DriveEnd(narrow, pos, n) < bound
    ensures Drive(wide, pos, n) == Drive(narrow, pos, n)
    ensures DriveEnd(wide, pos, n) == DriveEnd(narrow, pos, n)
    decreases n
  {
    if n > 0 {
      var q := narrow(pos).1;
      DriveGrows(narrow, q, n - 1);
      assert AgreeAt(wide, narrow, bound, pos);
      DriveAgree(wide, narrow, bound, q, n - 1);
    }
  }

  /** The first `n` tokens a driver receives from cursor `pos`. */
  function Lex(input: seq<char>, pos: nat, n: nat): (ts: seq<Token>)
    ensures |ts| == n
  {
    Drive(Step(input), pos, n)
  }

  /** The cursor after `n` calls from cursor `pos`. */
  function PosAfter(input: seq<char>, pos: nat, n: nat): nat {
    DriveEnd(Step(input), pos, n)
  }

  /** Every call moves the cursor forward. */
  lemma StepAdvances(input: seq<char>)
    ensures Advancing(Step(input))
  {
  }

  /** Each call advances the cursor by at least one. */
  lemma PosAfterGrows(input: seq<char>, pos: nat, n: nat)
    ensures pos + n <= PosAfter(input, pos, n)
  {
    StepAdvances(input);
    DriveGrows(Step(input), pos, n);
  }

  /** The `i`-th token is the one produced from the cursor after `i` calls. */
  lemma LexAt(input: seq<char>, pos: nat, n: nat, i: nat)
    requires i < n
    ensures Lex(input, pos, n)[i] == Next(input, PosAfter(input, pos, i)).0
  {
    DriveAt(Step(input), pos, n, i);
  }

  /** One more call moves the cursor to where that call leaves it. */
  lemma PosAfterNext(input: seq<char>, pos: nat, i: nat)
    ensures PosAfter(input, pos, i + 1) == Next(input, PosAfter(input, pos, i)).1
    ensures Lex(input, pos, i + 1) == Lex(input, pos, i) + [Next(input, PosAfter(input, pos, i)).0]
  {
    var step := Step(input);
    DriveSplit(step, pos, i, 1);
    var p := DriveEnd(step, pos, i);
    assert Drive(step, p, 1) == [step(p).0] + Drive(step, step(p).1, 0);
  }

  /** Once the cursor is at or past the end, every call yields EOF "". */
  lemma EofForever(input: seq<char>, pos: nat, n: nat)
    requires |input| <= pos
    ensures forall i :: 0 <= i < n ==> Lex(input, pos, n)[i] == Token(EOF, "")
  {
    forall i | 0 <= i < n
      ensures Lex(input, pos, n)[i] == Token(EOF, "")
    {
      LexAt(input, pos, n, i);
      PosAfterGrows(input, pos, i);
      NextAtEnd(input, PosAfter(input, pos, i));
    }
  }

  /** A driver starting a fresh lexer receives EOF by call `|input| + 1`
      at the latest. */
  lemma ReachesEof(input: seq<char>)
    ensures Lex(input, 0, |input| + 1)[|input|] == Token(EOF, "")
  {
    LexAt(input, 0, |input| + 1, |input|);
    PosAfterGrows(input, 0, |input|);
    NextAtEnd(input, PosAfter(input, 0, |input|));
  }
}

/** Lexing is local: a token depends only on the text from the cursor up to
    and including the byte at the cursor it returns (the byte that ends a
    run, or the lookahead byte that is not `=`), so the token stream of a
    text can be assembled from the token streams of its pieces. */
module LexingComposition {
  import opened Tokens
  import opened Lexing
  import opened LexingProperties

  /** Prefixing the input with any text shifts the maximal runs by its length. */
  lemma RunEndShift(pre: seq<char>, input: seq<char>, pos: nat, inClass: char -> bool)
    requires !inClass(NUL)
    ensures RunEnd(pre + input, |pre| + pos, inClass) == |pre| + RunEnd(input, pos, inClass)
  {
    var e := RunEnd(input, pos, inClass);
    RunEndInClass(input, pos, inClass);
    forall i | |pre| + pos <= i < |pre| + e
      ensures inClass(CharAt(pre + input, i))
    {
      assert CharAt(pre + input, i) == input[i - |pre|];
    }
    assert CharAt(pre + input, |pre| + e) == CharAt(input, e);
    RunEndUnique(pre + input, |pre| + pos, |pre| + e, inClass);
  }

  /** After a prefix, the identifier scan reads the same token, with its end
      shifted by the prefix length. */
  lemma {:induction false} IdentifierTokenShift(pre: seq<char>, input: seq<char>, s: nat, i: nat)
    requires s <= i <= |input|
    ensures IdentifierToken(pre + input, |pre| + s, |pre| + i)
      == (IdentifierToken(input, s, i).0, |pre| + IdentifierToken(input, s, i).1)
    decreases |input| - i
  {
    assert CharAt(pre + input, |pre| + i) == CharAt(input, i);
    if IsLetter(CharAt(input, i)) {
      IdentifierTokenShift(pre, input, s, i + 1);
    } else {
      assert (pre + input)[|pre| + s..|pre| + i] == input[s..i];
    }
  }

  /** After a prefix, the number scan reads the same token, with its end
      shifted by the prefix length. */
  lemma {:induction false} NumberTokenShift(pre: seq<char>, input: seq<char>, s: nat, i: nat)
    requires s <= i <= |input|
    ensures NumberToken(pre + input, |pre| + s, |pre| + i)
      == (NumberToken(input, s, i).0, |pre| + NumberToken(input, s, i).1)
    decreases |input| - i
  {
    assert CharAt(pre + input, |pre| + i) == CharAt(input, i);
    if IsDigit(CharAt(input, i)) {
      NumberTokenShift(pre, input, s, i + 1);
    } else {
      assert (pre + input)[|pre| + s..|pre| + i] == input[s..i];
    }
  }

  /** Shift invariance of classification: scanning after a prefix gives the
      same token, with the cursor shifted by the prefix length. */
  lemma ScanShift(pre: seq<char>, input: seq<char>, s: nat)
    ensures Scan(pre + input, |pre| + s) == (Scan(input, s).0, |pre| + Scan(input, s).1)
  {
    var whole := pre + input;
    assert CharAt(whole, |pre| + s) == CharAt(input, s);
    assert CharAt(whole, |pre| + s + 1) == CharAt(input, s + 1);
    assert CharAt(whole, |pre| + s + 2) == CharAt(input, s + 2);
    var c := CharAt(input, s);
    if IsLetter(c) {
      IdentifierTokenShift(pre, input, s, s);
    } else if IsDigit(c) {
      NumberTokenShift(pre, input, s, s);
    }
  }

  /** Shift invariance of one call. */
  lemma NextShift(pre: seq<char>, input: seq<char>, pos: nat)
    ensures Next(pre + input, |pre| + pos) == (Next(input, pos).0, |pre| + Next(input, pos).1)
  {
    RunEndShift(pre, input, pos, IsWhitespace);
    ScanShift(pre, input, RunEnd(input, pos, IsWhitespace));
  }

  /** Shift invariance of the driver's step from one cursor. */
  lemma StepShiftAt(pre: seq<char>, input: seq<char>, p: nat)
    ensures ShiftedAt(Step(pre + input), Step(input), |pre|, p)
  {
    NextShift(pre, input, p);
    assert Step(pre + input)(|pre| + p) == Next(pre + input, |pre| + p);
    assert Step(input)(p) == Next(input, p);
  }

  /** Shift invariance of the driver's step, from every cursor. */
  lemma StepShift(pre: seq<char>, input: seq<char>)
    ensures ShiftedBy(Step(pre + input), Step(input), |pre|)
  {
    forall p: nat
      ensures ShiftedAt(Step(pre + input), Step(input), |pre|, p)
    {
      StepShiftAt(pre, input, p);
    }
  }

  /** Shift invariance for a whole run of calls. */
  lemma LexShift(pre: seq<char>, input: seq<char>, pos: nat, n: nat)
    ensures Lex(pre + input, |pre| + pos, n) == Lex(input, pos, n)
    ensures PosAfter(pre + input, |pre| + pos, n) == |pre| + PosAfter(input, pos, n)
  {
    StepShift(pre, input);
    DriveShift(Step(pre + input), Step(input), |pre|, pos, n);
  }

  /** A run that ends inside `a` is not affected by what follows `a`. */
  lemma RunEndExtend(a: seq<char>, b: seq<char>, pos: nat, inClass: char -> bool)
    requires !inClass(NUL)
    requires RunEnd(a, pos, inClass) < |a|
    ensures RunEnd(a + b, pos, inClass) == RunEnd(a, pos, inClass)
  {
    var e := RunEnd(a, pos, inClass);
    RunEndInClass(a, pos, inClass);
    forall i | pos <= i < e
      ensures inClass(CharAt(a + b, i))
    {
      assert CharAt(a + b, i) == a[i];
    }
    assert CharAt(a + b, e) == a[e];
    RunEndUnique(a + b, pos, e, inClass);
  }

  /** An identifier scan that ends inside `a` reads the same token whatever
      follows `a`. */
  lemma {:induction false} IdentifierTokenExtend(a: seq<char>, b: seq<char>, s: nat, i: nat)
    requires s <= i <= |a|
    requires IdentifierToken(a, s, i).1 < |a|
    ensures IdentifierToken(a + b, s, i) == IdentifierToken(a, s, i)
    decreases |a| - i
  {
    assert CharAt(a + b, i) == CharAt(a, i);
    if IsLetter(CharAt(a, i)) {
      IdentifierTokenExtend(a, b, s, i + 1);
    } else {
      assert (a + b)[s..i] == a[s..i];
    }
  }

  /** An number scan that ends inside `a` reads the same token whatever
      follows `a`. */
  lemma {:induction false} NumberTokenExtend(a: seq<char>, b: seq<char>, s: nat, i: nat)
    requires s <= i <= |a|
    requires NumberToken(a, s, i).1 < |a|
    ensures NumberToken(a + b, s, i) == NumberToken(a, s, i)
    decreases |a| - i
  {
    assert CharAt(a + b, i) == CharAt(a, i);
    if IsDigit(CharAt(a, i)) {
      NumberTokenExtend(a, b, s, i + 1);
    } else {
      assert (a + b)[s..i] == a[s..i];
    }
  }

  /** A token that ends inside `a` is classified the same whatever follows `a`. */
  lemma ScanExtend(a: seq<char>, b: seq<char>, s: nat)
    requires Scan(a, s).1 < |a|
    ensures Scan(a + b, s) == Scan(a, s)
  {
    var c := CharAt(a, s);
    assert CharAt(a + b, s) == c;
    if c == '=' || c == '!' {
      assert CharAt(a + b, s + 1) == CharAt(a, s + 1);
      if CharAt(a, s + 1) == '=' {
        assert CharAt(a + b, s + 2) == CharAt(a, s + 2);
      }
    } else if IsLetter(c) {
      IdentifierTokenExtend(a, b, s, s);
    } else if IsDigit(c) {
      NumberTokenExtend(a, b, s, s);
    }
  }

  /** A call that ends inside `a` is not affected by what follows `a`: the
      lexer never looks past the cursor it returns. */
  lemma NextExtend(a: seq<char>, b: seq<char>, pos: nat)
    requires Next(a, pos).1 < |a|
    ensures Next(a + b, pos) == Next(a, pos)
  {
    var s := RunEnd(a, pos, IsWhitespace);
    assert s < Scan(a, s).1;
    RunEndExtend(a, b, pos, IsWhitespace);
    ScanExtend(a, b, s);
  }

  /** The driver's step over `a + b` agrees with the one over `a` from a
      cursor where the latter ends inside `a`. */
  lemma StepExtendAt(a: seq<char>, b: seq<char>, p: nat)
    ensures AgreeAt(Step(a + b), Step(a), |a|, p)
  {
    assert Step(a)(p) == Next(a, p);
    assert Step(a + b)(p) == Next(a + b, p);
    if Next(a, p).1 < |a| {
      NextExtend(a, b, p);
    }
  }

  /** The driver's step over `a + b` agrees with the one over `a` wherever
      the latter ends inside `a`. */
  lemma StepExtend(a: seq<char>, b: seq<char>)
    ensures AgreeBefore(Step(a + b), Step(a), |a|)
  {
    forall p: nat
      ensures AgreeAt(Step(a + b), Step(a), |a|, p)
    {
      StepExtendAt(a, b, p);
    }
  }

  /** Calls that all end inside `a` are not affected by what follows `a`. */
  lemma LexExtend(a: seq<char>, b: seq<char>, pos: nat, n: nat)
    requires PosAfter(a, pos, n) < |a|
    ensures Lex(a + b, pos, n) == Lex(a, pos, n)
    ensures PosAfter(a + b, pos, n) == PosAfter(a, pos, n)
  {
    StepAdvances(a);
    StepExtend(a, b);
    DriveAgree(Step(a + b), Step(a), |a|, pos, n);
  }

  /** Within one input, a run of whitespace before the cursor does not
      change the token, nor the cursor it returns. */
  lemma NextSkipsRun(input: seq<char>, p: nat, r: nat)
    requires p <= r
    requires forall i :: p <= i < r ==> IsWhitespace(CharAt(input, i))
    ensures Next(input, p) == Next(input, r)
  {
    var s := RunEnd(input, r, IsWhitespace);
    RunEndInClass(input, r, IsWhitespace);
    NextStartsAfterWhitespace(input, p, s);
    NextStartsAfterWhitespace(input, r, s);
  }

  /** The token stream of `a + b` is that of `a` followed by that of `b`,
      when the first `n` tokens of `a` end inside `a` and only whitespace
      follows them there. */
  lemma LexConcat(a: seq<char>, b: seq<char>, n: nat, m: nat)
    requires PosAfter(a, 0, n) <= |a|
    requires 0 < n ==> PosAfter(a, 0, n) < |a|
    requires forall i :: PosAfter(a, 0, n) <= i < |a| ==> IsWhitespace(a[i])
    ensures Lex(a + b, 0, n + m) == Lex(a, 0, n) + Lex(b, 0, m)
    ensures 0 < m ==> PosAfter(a + b, 0, n + m) == |a| + PosAfter(b, 0, m)
  {
    var p := PosAfter(a, 0, n);
    LexConcatPrefix(a, b, n);
    LexConcatSuffix(a, b, p, m);
    DriveSplit(Step(a + b), 0, n, m);
  }

  /** The first `n` calls on `a + b` are those on `a`, when they end inside `a`. */
  lemma LexConcatPrefix(a: seq<char>, b: seq<char>, n: nat)
    requires 0 < n ==> PosAfter(a, 0, n) < |a|
    ensures Lex(a + b, 0, n) == Lex(a, 0, n)
    ensures PosAfter(a + b, 0, n) == PosAfter(a, 0, n)
  {
    if 0 < n {
      LexExtend(a, b, 0, n);
    }
  }

  /** The calls on `a + b` from a cursor followed only by whitespace in `a`
      are the calls on `b` from its start, shifted. */
  lemma LexConcatSuffix(a: seq<char>, b: seq<char>, p: nat, m: nat)
    requires p <= |a|
    requires forall i :: p <= i < |a| ==> IsWhitespace(a[i])
    ensures Lex(a + b, p, m) == Lex(b, 0, m)
    ensures 0 < m ==> PosAfter(a + b, p, m) == |a| + PosAfter(b, 0, m)
  {
    if 0 < m {
      LexShift(a, b, 0, m);
      LexAcrossTrailingRun(a, b, p, m);
    }
  }

  /** Calls on `a + b` from a cursor followed only by whitespace in `a` give
      the stream of the calls from the start of `b`. */
  lemma LexAcrossTrailingRun(a: seq<char>, b: seq<char>, p: nat, m: nat)
    requires 0 < m && p <= |a|
    requires forall i :: p <= i < |a| ==> IsWhitespace(a[i])
    ensures Lex(a + b, p, m) == Lex(a + b, |a| + 0, m)
    ensures PosAfter(a + b, p, m) == PosAfter(a + b, |a| + 0, m)
  {
    forall i | p <= i < |a| ensures IsWhitespace(CharAt(a + b, i)) {
      assert CharAt(a + b, i) == a[i];
    }
    LexSkipsRun(a + b, p, |a| + 0, m);
  }

  /** Calls from anywhere inside a whitespace run give the same stream and
      end at the same cursor. */
  lemma LexSkipsRun(input: seq<char>, p: nat, r: nat, m: nat)
    requires p <= r
    requires forall i :: p <= i < r ==> IsWhitespace(CharAt(input, i))
    ensures Lex(input, p, m) == Lex(input, r, m)
    ensures 0 < m ==> PosAfter(input, p, m) == PosAfter(input, r, m)
  {
    if 0 < m {
      NextSkipsRun(input, p, r);
      LexCursorIrrelevant(input, p, r, m);
    }
  }

  /** Two cursors from which the next call agrees give the same stream. */
  lemma LexCursorIrrelevant(input: seq<char>, p: nat, r: nat, m: nat)
    requires 0 < m
    requires Next(input, p) == Next(input, r)
    ensures Lex(input, p, m) == Lex(input, r, m)
    ensures PosAfter(input, p, m) == PosAfter(input, r, m)
  {
    var step := Step(input);
    DriveSplit(step, p, 1, m - 1);
    DriveSplit(step, r, 1, m - 1);
    assert Drive(step, p, 1) == [step(p).0] + Drive(step, step(p).1, 0);
    assert Drive(step, r, 1) == [step(r).0] + Drive(step, step(r).1, 0);
  }

  /** A run that reaches the end of `x` stops there when what follows `x`
      begins with a byte outside the class. */
  lemma RunEndBeforeStop(x: seq<char>, z: seq<char>, pos: nat, inClass: char -> bool)
    requires !inClass(NUL) && pos <= |x|
    requires 0 < |z| && !inClass(z[0])
    ensures RunEnd(x + z, pos, inClass) == RunEnd(x, pos, inClass) <= |x|
  {
    var e := RunEnd(x, pos, inClass);
    RunEndInClass(x, pos, inClass);
    forall i | pos <= i < e
      ensures inClass(CharAt(x + z, i))
    {
      assert CharAt(x + z, i) == x[i];
    }
    assert CharAt(x + z, e) == if e < |x| then x[e] else z[0];
    RunEndUnique(x + z, pos, e, inClass);
  }

  /** A word or number that starts inside `x` ends inside `x` or at its
      end, whatever follows `x`, when that begins with whitespace. */
  lemma RunTokenBeforeWhitespace(x: seq<char>, z: seq<char>, s: nat)
    requires s < |x| && 0 < |z| && IsWhitespace(z[0])
    ensures IsLetter(x[s]) ==> IdentifierToken(x + z, s, s) == IdentifierToken(x, s, s)
    ensures IsLetter(x[s]) ==> IdentifierToken(x, s, s).1 <= |x|
    ensures IsDigit(x[s]) ==> NumberToken(x + z, s, s) == NumberToken(x, s, s)
    ensures IsDigit(x[s]) ==> NumberToken(x, s, s).1 <= |x|
  {
    if IsLetter(x[s]) {
      RunEndBeforeStop(x, z, s, IsLetter);
      IdentifierTokenRun(x + z, s, s);
      IdentifierTokenRun(x, s, s);
      var e := RunEnd(x, s, IsLetter);
      assert (x + z)[s..e] == x[s..e];
    }
    if IsDigit(x[s]) {
      RunEndBeforeStop(x, z, s, IsDigit);
      NumberTokenRun(x + z, s, s);
      NumberTokenRun(x, s, s);
      var e := RunEnd(x, s, IsDigit);
      assert (x + z)[s..e] == x[s..e];
    }
  }

  /** A token that starts inside `x` ends inside `x` or at its end, and is
      the same whatever follows `x`, when that begins with whitespace: no
      run continues across a whitespace byte, and no lookahead `=` matches it. */
  lemma ScanBeforeWhitespace(x: seq<char>, z: seq<char>, s: nat)
    requires s < |x| && 0 < |z| && IsWhitespace(z[0])
    ensures Scan(x + z, s) == Scan(x, s)
    ensures Scan(x, s).1 <= |x|
  {
    assert CharAt(x + z, s) == CharAt(x, s) == x[s];
    assert CharAt(x + z, s + 1) == '=' <==> CharAt(x, s + 1) == '=';
    assert CharAt(x, s + 1) == '=' ==> (CharAt(x + z, s + 2) == '=' <==> CharAt(x, s + 2) == '=');
    RunTokenBeforeWhitespace(x, z, s);
  }

  /** Every character of `w` is whitespace. */
  predicate AllWhitespace(w: seq<char>) {
    forall i :: 0 <= i < |w| ==> IsWhitespace(w[i])
  }

  /** Cursors of `x + w1 + y` and `x + w2 + y` that correspond: the same
      cursor inside `x`, or the same offset into `y` and beyond. */
  predicate Corresponding(x: seq<char>, w1: seq<char>, w2: seq<char>, p1: nat, p2: nat) {
    (p1 == p2 && p1 <= |x|)
    || (|x| + |w1| <= p1 && |x| + |w2| <= p2 && p1 - |w1| == p2 - |w2|)
  }

  /** A call whose whitespace run ends inside `x` reads the token `x` alone
      gives, when what follows `x` begins with whitespace. */
  lemma NextInsidePrefix(x: seq<char>, z: seq<char>, p: nat)
    requires 0 < |z| && IsWhitespace(z[0])
    requires p <= |x| && RunEnd(x, p, IsWhitespace) < |x|
    ensures Next(x + z, p) == Scan(x, RunEnd(x, p, IsWhitespace))
    ensures Scan(x, RunEnd(x, p, IsWhitespace)).1 <= |x|
  {
    RunEndExtend(x, z, p, IsWhitespace);
    ScanBeforeWhitespace(x, z, RunEnd(x, p, IsWhitespace));
  }

  /** A whitespace run that reaches the end of `x` runs on through the
      whole whitespace run `w` after it. */
  lemma RunEndSkipsGap(x: seq<char>, w: seq<char>, y: seq<char>, p: nat)
    requires AllWhitespace(w)
    requires p <= |x| && RunEnd(x, p, IsWhitespace) == |x|
    ensures RunEnd(x + w + y, p, IsWhitespace) == RunEnd(x + w + y, |x| + |w|, IsWhitespace)
  {
    var input := x + w + y;
    var e := RunEnd(input, |x| + |w|, IsWhitespace);
    RunEndInClass(x, p, IsWhitespace);
    RunEndInClass(input, |x| + |w|, IsWhitespace);
    forall i | p <= i < e
      ensures IsWhitespace(CharAt(input, i))
    {
      if i < |x| + |w| {
        assert CharAt(input, i) == if i < |x| then x[i] else w[i - |x|];
      }
    }
    RunEndUnique(input, p, e, IsWhitespace);
  }

  /** A call from an offset `o` past `x + w` is the call on `y` from `o`,
      shifted by `|x| + |w|`. */
  lemma NextAfterRun(x: seq<char>, w: seq<char>, y: seq<char>, o: nat, p: nat)
    requires p == |x| + |w| + o
    ensures Next(x + w + y, p).0 == Next(y, o).0
    ensures Next(x + w + y, p).1 == |x| + |w| + Next(y, o).1
  {
    NextShift(x + w, y, o);
  }

  /** Two results that are one result shifted past two whitespace runs
      correspond. */
  lemma ShiftedResultsCorrespond(x: seq<char>, w1: seq<char>, w2: seq<char>,
                                 r1: (Token, nat), r2: (Token, nat), r: (Token, nat))
    requires r1.0 == r.0 && r1.1 == |x| + |w1| + r.1
    requires r2.0 == r.0 && r2.1 == |x| + |w2| + r.1
    ensures r1.0 == r2.0 && Corresponding(x, w1, w2, r1.1, r2.1)
  {
  }

  /** From the same offset past two whitespace runs, a call gives the same
      token and leaves the cursors at the same offset. */
  lemma NextAfterRuns(x: seq<char>, w1: seq<char>, w2: seq<char>, y: seq<char>, o: nat, p1: nat, p2: nat)
    requires p1 == |x| + |w1| + o && p2 == |x| + |w2| + o
    ensures Next(x + w1 + y, p1).0 == Next(x + w2 + y, p2).0
    ensures Corresponding(x, w1, w2, Next(x + w1 + y, p1).1, Next(x + w2 + y, p2).1)
  {
    NextAfterRun(x, w1, y, o, p1);
    NextAfterRun(x, w2, y, o, p2);
    ShiftedResultsCorrespond(x, w1, w2, Next(x + w1 + y, p1), Next(x + w2 + y, p2), Next(y, o));
  }

  /** From the same cursor inside `x`, when the whitespace run ends inside
      `x`: both calls read the token `x` alone gives. */
  lemma NextInsideRuns(x: seq<char>, w1: seq<char>, w2: seq<char>, y: seq<char>, p: nat)
    requires 0 < |w1| && AllWhitespace(w1)
    requires 0 < |w2| && AllWhitespace(w2)
    requires p <= |x| && RunEnd(x, p, IsWhitespace) < |x|
    ensures Next(x + w1 + y, p).0 == Next(x + w2 + y, p).0
    ensures Corresponding(x, w1, w2, Next(x + w1 + y, p).1, Next(x + w2 + y, p).1)
  {
    assert x + w1 + y == x + (w1 + y);
    assert x + w2 + y == x + (w2 + y);
    NextInsidePrefix(x, w1 + y, p);
    NextInsidePrefix(x, w2 + y, p);
  }

  /** Two cursors whose whitespace runs end at the same byte make the same
      calls. */
  lemma LexSameRunEnd(input: seq<char>, p: nat, q: nat, n: nat)
    requires RunEnd(input, p, IsWhitespace) == RunEnd(input, q, IsWhitespace)
    ensures Lex(input, p, n) == Lex(input, q, n)
  {
    if 0 < n {
      assert Next(input, p) == Next(input, q);
      LexCursorIrrelevant(input, p, q, n);
    }
  }

  /** One call from corresponding cursors of two inputs that differ only in
      a non-empty whitespace run gives the same token and corresponding new
      cursors, unless only whitespace lies between the cursor and the end of
      `x` (that case is `LexPastGap`'s). */
  lemma NextAcrossRuns(x: seq<char>, w1: seq<char>, w2: seq<char>, y: seq<char>, p1: nat, p2: nat)
    requires 0 < |w1| && AllWhitespace(w1)
    requires 0 < |w2| && AllWhitespace(w2)
    requires Corresponding(x, w1, w2, p1, p2)
    requires p1 <= |x| ==> RunEnd(x, p1, IsWhitespace) < |x|
    ensures Next(x + w1 + y, p1).0 == Next(x + w2 + y, p2).0
    ensures Corresponding(x, w1, w2, Next(x + w1 + y, p1).1, Next(x + w2 + y, p2).1)
  {
    if |x| + |w1| <= p1 {
      NextAfterRuns(x, w1, w2, y, p1 - |x| - |w1|, p1, p2);
    } else {
      NextInsideRuns(x, w1, w2, y, p1);
    }
  }

  /** Runs of calls from corresponding cursors, neither of them followed
      by whitespace alone up to the end of `x`, give the same tokens. */
  lemma {:induction false} LexAcrossRuns(x: seq<char>, w1: seq<char>, w2: seq<char>, y: seq<char>,
                                         p1: nat, p2: nat, n: nat)
    requires 0 < |w1| && AllWhitespace(w1)
    requires 0 < |w2| && AllWhitespace(w2)
    requires Corresponding(x, w1, w2, p1, p2)
    requires p1 <= |x| ==> RunEnd(x, p1, IsWhitespace) < |x|
    ensures Lex(x + w1 + y, p1, n) == Lex(x + w2 + y, p2, n)
    decreases n
  {
    if 0 < n {
      var in1, in2 := x + w1 + y, x + w2 + y;
      NextAcrossRuns(x, w1, w2, y, p1, p2);
      var q1, q2 := Next(in1, p1).1, Next(in2, p2).1;
      PastGapCorresponds(x, w1, w2, q1, q2);
      LexPastGap(x, w1, y, q1, n - 1);
      LexPastGap(x, w2, y, q2, n - 1);
      LexAcrossRuns(x, w1, w2, y, PastGap(x, w1, q1), PastGap(x, w2, q2), n - 1);
      assert Step(in1)(p1) == Next(in1, p1);
      assert Step(in2)(p2) == Next(in2, p2);
      assert Lex(in1, p1, n) == [Next(in1, p1).0] + Lex(in1, q1, n - 1);
      assert Lex(in2, p2, n) == [Next(in2, p2).0] + Lex(in2, q2, n - 1);
    }
  }

  /** Where a cursor goes when it is moved past the run `w`: a cursor inside
      `x` with only whitespace between it and the end of `x` moves to just past
      `w`, and any other cursor stays. */
  function PastGap(x: seq<char>, w: seq<char>, q: nat): (r: nat)
    ensures r == q || (q <= |x| && r == |x| + |w|)
  {
    if q <= |x| && RunEnd(x, q, IsWhitespace) == |x| then |x| + |w| else q
  }

  /** Moving corresponding cursors past the runs keeps them corresponding and
      leaves them outside any gap. */
  lemma PastGapCorresponds(x: seq<char>, w1: seq<char>, w2: seq<char>, q1: nat, q2: nat)
    requires 0 < |w1| && 0 < |w2|
    requires Corresponding(x, w1, w2, q1, q2)
    ensures Corresponding(x, w1, w2, PastGap(x, w1, q1), PastGap(x, w2, q2))
    ensures PastGap(x, w1, q1) <= |x| ==> RunEnd(x, PastGap(x, w1, q1), IsWhitespace) < |x|
  {
  }

  /** Moving a cursor past the run does not change the calls from it. */
  lemma LexPastGap(x: seq<char>, w: seq<char>, y: seq<char>, q: nat, n: nat)
    requires AllWhitespace(w)
    ensures Lex(x + w + y, q, n) == Lex(x + w + y, PastGap(x, w, q), n)
  {
    if q <= |x| && RunEnd(x, q, IsWhitespace) == |x| {
      RunEndSkipsGap(x, w, y, q);
      LexSameRunEnd(x + w + y, q, |x| + |w|, n);
    }
  }

  /** Whitespace transparency: two inputs that differ only in one run of
      whitespace (a non-empty run replaced by another non-empty run) give the
      same token stream. Both runs must be non-empty: `ab` is not `a b`. */
  lemma LexWhitespaceRuns(x: seq<char>, w1: seq<char>, w2: seq<char>, y: seq<char>, n: nat)
    requires 0 < |w1| && forall i :: 0 <= i < |w1| ==> IsWhitespace(w1[i])
    requires 0 < |w2| && forall i :: 0 <= i < |w2| ==> IsWhitespace(w2[i])
    ensures Lex(x + w1 + y, 0, n) == Lex(x + w2 + y, 0, n)
  {
    PastGapCorresponds(x, w1, w2, 0, 0);
    LexPastGap(x, w1, y, 0, n);
    LexPastGap(x, w2, y, 0, n);
    LexAcrossRuns(x, w1, w2, y, PastGap(x, w1, 0), PastGap(x, w2, 0), n);
  }
}
