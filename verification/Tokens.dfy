/** Tokens, and the precedence table that definitions of operators extend. */
module Tokens {
  /**
   What `getTok` returns, with the text it leaves in the lexer.  `Char` is any other character; the
   parser sees `Eof` for ever once the tokens are used up.
   */
  datatype Token =
    | Eof | Def | Extern
    | Identifier(name: string) | Number(text: string)
    | If | Then | Else | For | In | Binary | Unary | Var
    | Char(c: char)

  function Head(s: seq<Token>): Token { if s == [] then Eof else s[0] }

  function Next(s: seq<Token>): seq<Token> { if s == [] then [] else s[1..] }

  predicate Ascii(c: char) { c < 128 as char }

  type Table = map<char, int>

  /** `getTokPrecedence`: the precedence of a binary operator, and -1 for every other token. */
  function Prec(t: Table, k: Token): (p: int)
    ensures p == -1 || (p > 0 && k.Char? && Ascii(k.c) && k.c in t && t[k.c] == p)
  {
    if k.Char? && Ascii(k.c) && k.c in t && t[k.c] > 0 then t[k.c] else -1
  }

  const OPEN := Char('(')
  const CLOSE := Char(')')
  const COMMA := Char(',')
  const EQUALS := Char('=')
}
