/** Tokens as the parse tree sees them: a lexeme, and for keywords and
    punctuators the lextant the scanner recognised. */
module Lexical {
  import opened Wrappers

  datatype Punctuator =
    | Add | Subtract | Multiply | Divide
    | Greater | GreaterOrEqual | Equal | NotEqual | Lesser | LesserOrEqual

  datatype Keyword = True | False | OtherKeyword(word: string)

  datatype Lextant = Keyword(keyword: Keyword) | Punctuation(punctuator: Punctuator)

  /** `lextant` is `Some` exactly for a LextantToken. */
  datatype Token = Token(lexeme: string, lextant: Option<Lextant>)

  /** Token.isLextant(a, b, ...): a lextant token whose lextant is one of `choices`. */
  predicate IsLextant(t: Token, choices: set<Lextant>) {
    t.lextant.Some? && t.lextant.value in choices
  }

  /** The lexeme of each punctuator. */
  function PunctuatorLexeme(p: Punctuator): string {
    match p
    case Add => "+"
    case Subtract => "-"
    case Multiply => "*"
    case Divide => "/"
    case Greater => ">"
    case GreaterOrEqual => ">="
    case Equal => "=="
    case NotEqual => "!="
    case Lesser => "<"
    case LesserOrEqual => "<="
  }
}
