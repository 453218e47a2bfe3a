/**
 The recursive-descent parser as functions on the tokens still to be read: each one gives what it
 recognises and the tokens left, or an error and the tokens left when it gave up.
 */
module Parsing {
  import opened Prelude
  import A = Ast
  import opened Tokens

  datatype ParseError =
    | UnknownToken | ExpectedClose | ExpectedCloseOrComma | ExpectedThen | ExpectedElse
    | ExpectedForName | ExpectedForEquals | ExpectedForComma | ExpectedForIn
    | ExpectedVarName | ExpectedVarList | ExpectedVarIn
    | ExpectedUnaryOperator | ExpectedBinaryOperator | InvalidPrecedence | ExpectedFunctionName
    | ExpectedOpen | WrongOperandCount

  datatype Reply<+T> = Good(value: T, rest: seq<Token>) | Fail(error: ParseError, rest: seq<Token>) {
    predicate IsFailure() { Fail? }
    function PropagateFailure<U>(): Reply<U>
      requires Fail?
    {
      Fail(error, rest)
    }
    function Extract(): (T, seq<Token>)
      requires Good?
    {
      (value, rest)
    }
  }

  /** Something was read, and nothing was put back. */
  predicate Progress<T>(r: Reply<T>, s: seq<Token>) {
    if r.Good? then |r.rest| < |s| else |r.rest| <= |s|
  }

  // ----- Expressions -----

  function ParseExpression(t: Table, s: seq<Token>): (r: Reply<A.Expr>)
    ensures Progress(r, s)
    decreases |s|, 3
  {
    var (lhs, rest) :- ParseUnary(t, s);
    ParseBinOpRHS(t, 0, lhs, rest)
  }

  /** Any ASCII token but `(` and `,` is taken for a unary operator. */
  predicate UnaryToken(k: Token) { k.Char? && Ascii(k.c) && k != OPEN && k != COMMA }

  function ParseUnary(t: Table, s: seq<Token>): (r: Reply<A.Expr>)
    ensures Progress(r, s)
    decreases |s|, 2
  {
    if !UnaryToken(Head(s)) then ParsePrimary(t, s)
    else
      var (operand, rest) :- ParseUnary(t, Next(s));
      Good(A.Unary(Head(s).c, operand), rest)
  }

  function ParseBinOpRHS(t: Table, prec: nat, lhs: A.Expr, s: seq<Token>): (r: Reply<A.Expr>)
    ensures |r.rest| <= |s|
    decreases |s|, 0
  {
    var tokPrec := Prec(t, Head(s));
    if tokPrec < prec then Good(lhs, s)
    else
      var (operand, rest) :- ParseUnary(t, Next(s));
      var (rhs, rest') :- if tokPrec < Prec(t, Head(rest)) then ParseBinOpRHS(t, tokPrec + 1, operand,
          rest) else Good(operand, rest);
      ParseBinOpRHS(t, prec, A.Binary(Head(s).c, lhs, rhs), rest')
  }

  function ParsePrimary(t: Table, s: seq<Token>): (r: Reply<A.Expr>)
    ensures Progress(r, s)
    decreases |s|, 1
  {
    match Head(s)
    case Number(text) => Good(A.Number(text), Next(s))
    case Identifier(name) => ParseIdentifier(t, name, Next(s))
    case If => ParseIf(t, Next(s))
    case For => ParseFor(t, Next(s))
    case Var => ParseVar(t, Next(s))
    case Char(c) => if c == '(' then ParseParen(t, Next(s)) else Fail(UnknownToken, s)
    case _ => Fail(UnknownToken, s)
  }

  /** The rest of each construct, once its first token has been read. */
  function ParseParen(t: Table, s: seq<Token>): (r: Reply<A.Expr>)
    ensures Progress(r, s)
    decreases |s|, 4
  {
    var (e, rest) :- ParseExpression(t, s);
    if Head(rest) != CLOSE then Fail(ExpectedClose, rest) else Good(e, Next(rest))
  }

  function ParseIdentifier(t: Table, name: string, s: seq<Token>): (r: Reply<A.Expr>)
    ensures |r.rest| <= |s|
    decreases |s|, 0
  {
    if Head(s) != OPEN then Good(A.Variable(name), s)
    else if Head(Next(s)) == CLOSE then Good(A.Call(name, []), Next(Next(s)))
    else
      var (args, rest) :- ParseArgs(t, Next(s));
      Good(A.Call(name, args), rest)
  }

  /** At least one argument, up to and with the closing parenthesis. */
  function ParseArgs(t: Table, s: seq<Token>): (r: Reply<seq<A.Expr>>)
    ensures Progress(r, s)
    decreases |s|, 4
  {
    var (e, rest) :- ParseExpression(t, s);
    if Head(rest) == CLOSE then Good([e], Next(rest))
    else if Head(rest) != COMMA then Fail(ExpectedCloseOrComma, rest)
    else
      var (more, rest') :- ParseArgs(t, Next(rest));
      Good([e] + more, rest')
  }

  function ParseIf(t: Table, s: seq<Token>): (r: Reply<A.Expr>)
    ensures Progress(r, s)
    decreases |s|, 4
  {
    var (c, rest) :- ParseExpression(t, s);
    if Head(rest) != Then then Fail(ExpectedThen, rest)
    else
      var (x, rest') :- ParseExpression(t, Next(rest));
      if Head(rest') != Else then Fail(ExpectedElse, rest')
      else
        var (y, rest'') :- ParseExpression(t, Next(rest'));
        Good(A.If(c, x, y), rest'')
  }

  function ParseFor(t: Table, s: seq<Token>): (r: Reply<A.Expr>)
    ensures Progress(r, s)
    decreases |s|, 4
  {
    if !Head(s).Identifier? then Fail(ExpectedForName, s)
    else if Head(Next(s)) != EQUALS then Fail(ExpectedForEquals, Next(s))
    else
      var (start, r1) :- ParseExpression(t, Next(Next(s)));
      if Head(r1) != COMMA then Fail(ExpectedForComma, r1)
      else
        var (end, r2) :- ParseExpression(t, Next(r1));
        var (step, r3) :- ParseStep(t, r2);
        if Head(r3) != In then Fail(ExpectedForIn, r3)
        else
          var (body, r4) :- ParseExpression(t, Next(r3));
          Good(A.For(Head(s).name, start, end, step, body), r4)
  }

  function ParseStep(t: Table, s: seq<Token>): (r: Reply<Option<A.Expr>>)
    ensures |r.rest| <= |s|
    decreases |s|, 0
  {
    if Head(s) != COMMA then Good(None, s)
    else
      var (e, rest) :- ParseExpression(t, Next(s));
      Good(Some(e), rest)
  }

  function ParseVar(t: Table, s: seq<Token>): (r: Reply<A.Expr>)
    ensures Progress(r, s)
    decreases |s|, 5
  {
    if !Head(s).Identifier? then Fail(ExpectedVarName, s)
    else
      var (bs, rest) :- ParseBindings(t, s);
      if Head(rest) != In then Fail(ExpectedVarIn, rest)
      else
        var (body, rest') :- ParseExpression(t, Next(rest));
        Good(A.VarIn(bs, body), rest')
  }

  function ParseBindings(t: Table, s: seq<Token>): (r: Reply<seq<A.Binding>>)
    requires Head(s).Identifier?
    ensures Progress(r, s)
    decreases |s|, 4
  {
    var (init, rest) :- ParseInit(t, Next(s));
    var b := A.Binding(Head(s).name, init);
    if Head(rest) != COMMA then Good([b], rest)
    else if !Head(Next(rest)).Identifier? then Fail(ExpectedVarList, Next(rest))
    else
      var (more, rest') :- ParseBindings(t, Next(rest));
      Good([b] + more, rest')
  }

  function ParseInit(t: Table, s: seq<Token>): (r: Reply<Option<A.Expr>>)
    ensures |r.rest| <= |s|
    decreases |s|, 0
  {
    if Head(s) != EQUALS then Good(None, s)
    else
      var (e, rest) :- ParseExpression(t, Next(s));
      Good(Some(e), rest)
  }

  // ----- Prototypes and definitions -----

  /** The value `strtod` gives for the text of a number. */
  type Values = string -> real

  datatype Name = Name(name: string, arity: Option<nat>, precedence: nat)

  const DEFAULT_PRECEDENCE: nat := 30

  /** The first part of a prototype: its name, how many operands an operator must have, its precedence. */
  function ParseName(v: Values, s: seq<Token>): (r: Reply<Name>)
    ensures Progress(r, s)
  {
    match Head(s)
    case Identifier(name) => Good(Name(name, None, DEFAULT_PRECEDENCE), Next(s))
    case Unary =>
      var k := Head(Next(s));
      if !(k.Char? && Ascii(k.c)) then Fail(ExpectedUnaryOperator, Next(s))
      else Good(Name(A.UnaryName(k.c), Some(1), DEFAULT_PRECEDENCE), Next(Next(s)))
    case Binary =>
      var k := Head(Next(s));
      if !(k.Char? && Ascii(k.c)) then Fail(ExpectedBinaryOperator, Next(s))
      else
        var rest := Next(Next(s));
        if !Head(rest).Number? then Good(Name(A.BinaryName(k.c), Some(2), DEFAULT_PRECEDENCE), rest)
        else
          var n := v(Head(rest).text);
          if n < 1.0 || n > 100.0 then Fail(InvalidPrecedence, rest)
          else Good(Name(A.BinaryName(k.c), Some(2), n.Floor), Next(rest))
    case _ => Fail(ExpectedFunctionName, s)
  }

  /** Parameter names, up to and with the closing parenthesis; a comma may precede it. */
  function ParseParams(s: seq<Token>): (r: Reply<seq<string>>)
    ensures Progress(r, s)
    decreases |s|
  {
    if Head(s).Identifier? then
      var rest := Next(s);
      if Head(rest) == CLOSE then Good([Head(s).name], Next(rest))
      else if Head(rest) != COMMA then Fail(ExpectedCloseOrComma, rest)
      else
        var (more, rest') :- ParseParams(Next(rest));
        Good([Head(s).name] + more, rest')
    else if Head(s) != CLOSE then Fail(ExpectedClose, s)
    else Good([], Next(s))
  }

  function ParsePrototype(v: Values, s: seq<Token>): (r: Reply<A.Prototype>)
    ensures Progress(r, s)
  {
    var (n, rest) :- ParseName(v, s);
    if Head(rest) != OPEN then Fail(ExpectedOpen, rest)
    else
      var (params, rest') :- ParseParams(Next(rest));
      if n.arity.Some? && |params| != n.arity.value then Fail(WrongOperandCount, rest')
      else Good(A.Prototype(n.name, params, n.arity.Some?, n.precedence), rest')
  }

  function ParseDefinition(v: Values, t: Table, s: seq<Token>): (r: Reply<A.Definition>)
    requires Head(s) == Def
    ensures Progress(r, s)
  {
    var (proto, rest) :- ParsePrototype(v, Next(s));
    var (body, rest') :- ParseExpression(t, rest);
    Good(A.Definition(proto, body), rest')
  }

  const ANONYMOUS := A.Prototype("__anon_expr", [], false, 0)

  function ParseTopLevel(t: Table, s: seq<Token>): (r: Reply<A.Definition>)
    ensures Progress(r, s)
  {
    var (body, rest) :- ParseExpression(t, s);
    Good(A.Definition(ANONYMOUS, body), rest)
  }

  function ParseExtern(v: Values, s: seq<Token>): (r: Reply<A.Prototype>)
    requires Head(s) == Extern
    ensures Progress(r, s)
  {
    ParsePrototype(v, Next(s))
  }
}
