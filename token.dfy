/** The token model of the Gelox toolchain: the closed set of token kinds,
    the keyword table and the identifier classifier. */
module Tokens {

  /** Every token kind the toolchain declares. BIGINT and REMAINDER are
      declared but no lexing rule produces them. */
  datatype TokenType =
    | ILLEGAL | EOF
    | IDENT | DOUBLE | BIGINT
    | ASSIGN | PLUS | MINUS | BANG | ASTERISK | SLASH | REMAINDER
    | LT | GT | EQ | NEQ | STR_EQ | STR_NEQ
    | COMMA | SEMICOLON
    | LPAREN | RPAREN | LBRACE | RBRACE
    | FUNCTION | LET | TRUE | FALSE | IF | ELSE | RETURN

  /** A token: its kind and the text it was produced from. */
  datatype Token = Token(kind: TokenType, literal: string)

  datatype Option<T> = None | Some(value: T)

  /** The string value each kind's constant has in the toolchain. */
  function Spelling(k: TokenType): string {
    match k
    case ILLEGAL => "ILLEGAL"
    case EOF => "EOF"
    case IDENT => "IDENT"
    case DOUBLE => "DOUBLE"
    case BIGINT => "BIGINT"
    case ASSIGN => "="
    case PLUS => "+"
    case MINUS => "-"
    case BANG => "!"
    case ASTERISK => "*"
    case SLASH => "/"
    case REMAINDER => "%"
    case LT => "<"
    case GT => ">"
    case EQ => "=="
    case NEQ => "!="
    case STR_EQ => "==="
    case STR_NEQ => "!=="
    case COMMA => ","
    case SEMICOLON => ";"
    case LPAREN => "("
    case RPAREN => ")"
    case LBRACE => "{"
    case RBRACE => "}"
    case FUNCTION => "FUNCTION"
    case LET => "LET"
    case TRUE => "TRUE"
    case FALSE => "FALSE"
    case IF => "IF"
    case ELSE => "ELSE"
    case RETURN => "RETURN"
  }

  /** The only kind whose string value could have length `len` and first
      character `first`: no two kinds agree in both. This has no counterpart
      in the source. It exists only so that `KindNamed` and
      `KindNamedSpelling` can look a string up in one step, rather than
      comparing it with all 31 spellings in a 31-by-31 case split. */
  function Candidate(len: nat, first: char): Option<TokenType> {
    match len
    case 1 =>
      (match first
       case '=' => Some(ASSIGN)
       case '+' => Some(PLUS)
       case '-' => Some(MINUS)
       case '!' => Some(BANG)
       case '*' => Some(ASTERISK)
       case '/' => Some(SLASH)
       case '%' => Some(REMAINDER)
       case '<' => Some(LT)
       case '>' => Some(GT)
       case ',' => Some(COMMA)
       case ';' => Some(SEMICOLON)
       case '(' => Some(LPAREN)
       case ')' => Some(RPAREN)
       case '{' => Some(LBRACE)
       case '}' => Some(RBRACE)
       case _ => None)
    case 2 =>
      (match first
       case '=' => Some(EQ)
       case '!' => Some(NEQ)
       case 'I' => Some(IF)
       case _ => None)
    case 3 =>
      (match first
       case '=' => Some(STR_EQ)
       case '!' => Some(STR_NEQ)
       case 'E' => Some(EOF)
       case 'L' => Some(LET)
       case _ => None)
    case 4 =>
      (match first
       case 'T' => Some(TRUE)
       case 'E' => Some(ELSE)
       case _ => None)
    case 5 =>
      (match first
       case 'I' => Some(IDENT)
       case 'F' => Some(FALSE)
       case _ => None)
    case 6 =>
      (match first
       case 'D' => Some(DOUBLE)
       case 'B' => Some(BIGINT)
       case 'R' => Some(RETURN)
       case _ => None)
    case 7 => if first == 'I' then Some(ILLEGAL) else None
    case 8 => if first == 'F' then Some(FUNCTION) else None
    case _ => None
  }

  /** The kind whose constant has the string value `s`, if any. */
  function KindNamed(s: string): (r: Option<TokenType>)
    ensures r.Some? ==> Spelling(r.value) == s
  {
    if |s| == 0 then None
    else match Candidate(|s|, s[0])
      case Some(k) => if Spelling(k) == s then Some(k) else None
      case None => None
  }

  /** Reading a kind's string value back gives the kind. */
  lemma KindNamedSpelling(k: TokenType)
    ensures KindNamed(Spelling(k)) == Some(k)
  {
    match k
    case ILLEGAL =>
    case EOF =>
    case IDENT =>
    case DOUBLE =>
    case BIGINT =>
    case ASSIGN =>
    case PLUS =>
    case MINUS =>
    case BANG =>
    case ASTERISK =>
    case SLASH =>
    case REMAINDER =>
    case LT =>
    case GT =>
    case EQ =>
    case NEQ =>
    case STR_EQ =>
    case STR_NEQ =>
    case COMMA =>
    case SEMICOLON =>
    case LPAREN =>
    case RPAREN =>
    case LBRACE =>
    case RBRACE =>
    case FUNCTION =>
    case LET =>
    case TRUE =>
    case FALSE =>
    case IF =>
    case ELSE =>
    case RETURN =>
  }

  /** The kind constants are pairwise distinct strings, so an enumeration
      identifies the same kinds that the strings do. */
  lemma SpellingInjective(a: TokenType, b: TokenType)
    requires Spelling(a) == Spelling(b)
    ensures a == b
  {
    KindNamedSpelling(a);
    KindNamedSpelling(b);
  }

  /** The seven reserved-word kinds. */
  predicate IsKeyword(k: TokenType) {
    k.FUNCTION? || k.LET? || k.TRUE? || k.FALSE? || k.IF? || k.ELSE? || k.RETURN?
  }

  /** The reserved spelling of each keyword kind, as the language writes it. */
  function KeywordText(k: TokenType): string
    requires IsKeyword(k)
  {
    match k
    case FUNCTION => "function"
    case LET => "let"
    case TRUE => "true"
    case FALSE => "false"
    case IF => "if"
    case ELSE => "else"
    case RETURN => "return"
  }

  /** The keyword table: reserved spelling to keyword kind. It is a constant
      and nothing writes it. */
  const Keywords: map<string, TokenType> := map[
    "function" := FUNCTION,
    "let" := LET,
    "true" := TRUE,
    "false" := FALSE,
    "if" := IF,
    "else" := ELSE,
    "return" := RETURN
  ]

  /** Classifies an identifier-shaped spelling: the keyword kind for a
      reserved word (exact, case-sensitive match), IDENT for anything else. */
  function LookupIdent(ident: string): (r: TokenType)
    ensures r.IDENT? || IsKeyword(r)
    ensures IsKeyword(r) ==> ident == KeywordText(r)
    ensures r.IDENT? <==> forall k :: IsKeyword(k) ==> KeywordText(k) != ident
  {
    if ident in Keywords then Keywords[ident] else IDENT
  }

  /** Each reserved spelling classifies as its own keyword kind. */
  lemma LookupKeyword(k: TokenType)
    requires IsKeyword(k)
    ensures LookupIdent(KeywordText(k)) == k
  {
  }

  /** The keyword table is injective: two spellings that classify as the
      same keyword kind are the same spelling. */
  lemma LookupIdentInjective(s: string, t: string)
    requires LookupIdent(s) == LookupIdent(t)
    requires !LookupIdent(s).IDENT?
    ensures s == t
  {
  }

  /** The match is exact and case-sensitive: the empty string, a capitalised
      keyword, a keyword with a suffix and an ordinary name are identifiers. */
  lemma LookupIdentExamples()
    ensures LookupIdent("") == IDENT && LookupIdent("Let") == IDENT
    ensures LookupIdent("x") == IDENT && LookupIdent("function1") == IDENT
  {
  }
}
