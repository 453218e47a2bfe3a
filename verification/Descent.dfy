/**
 The parser as it runs: methods that read tokens from a lexer one at a time.  Each returns what the
 corresponding function of `Parsing` gives and leaves the same tokens unread.
 */
module Descent {
  import opened Prelude
  import A = Ast
  import opened Tokens
  import opened Lexing
  import opened Parsing
  import opened Scanner

  /** A method's result and the tokens it leaves, against what the function says. */
  predicate Gives<T(==)>(res: Result<T, ParseError>, left: seq<Token>, r: Reply<T>) {
    left == r.rest && res == match r { case Good(v, _) => Ok(v) case Fail(e, _) => Err(e) }
  }

  /** What a loop that has collected `xs` will return, given what it returns for the rest. */
  function Prepend<T>(xs: seq<T>, r: Reply<seq<T>>): Reply<seq<T>> {
    match r
    case Good(ys, rest) => Good(xs + ys, rest)
    case Fail(_, _) => r
  }

  lemma PrependOne<T>(xs: seq<T>, x: T, r: Reply<seq<T>>)
    ensures Prepend(xs, Prepend([x], r)) == Prepend(xs + [x], r)
  {
    if r.Good? {
      assert xs + ([x] + r.value) == xs + [x] + r.value;
    }
  }

  lemma PrependNone<T>(r: Reply<seq<T>>)
    ensures Prepend([], r) == r
  {
    if r.Good? {
      assert [] + r.value == r.value;
    }
  }

  class Parser {
    const lexer: Lexer
    const value: Values
    var currentToken: Token
    var binopPrecedence: Table

    ghost predicate Valid()
      reads this, lexer
    {
      && lexer.Valid()
      && (currentToken == Eof ==> Lex(lexer.Remaining()) == [])
      && (currentToken.Identifier? ==> lexer.identifier == currentToken.name)
      && (currentToken.Number? ==> lexer.number == currentToken.text)
    }

    /** The tokens that are still to be consumed, the current one first. */
    ghost function Left(): (s: seq<Token>)
      reads this, lexer
      ensures Head(s) == currentToken
    {
      if currentToken == Eof then [] else [currentToken] + Lex(lexer.Remaining())
    }

    constructor (text: string, value: Values, binopPrecedence: Table)
      ensures Valid() && fresh(lexer) && this.binopPrecedence == binopPrecedence && this.value == value
      ensures Next(Left()) == Lex(text)
    {
      lexer := new Lexer(text);
      this.value, this.binopPrecedence, currentToken := value, binopPrecedence, Char(0 as char);
      new;
      LeadingSpace(text);
    }

    method GetNextToken()
      requires Valid()
      modifies this`currentToken, lexer
      ensures Valid() && Left() == Next(old(Left()))
    {
      ghost var r := lexer.Remaining();
      LexFirst(r);
      currentToken := lexer.GetToken();
    }

    function TokPrecedence(): int
      reads this
    {
      Prec(binopPrecedence, currentToken)
    }

    method ParseNumberExpr() returns (r: Result<A.Expr, ParseError>)
      requires Valid() && currentToken.Number?
      modifies this`currentToken, lexer
      ensures Valid() && Gives(r, Left(), ParsePrimary(binopPrecedence, old(Left())))
    {
      r := Ok(A.Number(lexer.number));
      GetNextToken();
    }

    method ParseParenExpr() returns (r: Result<A.Expr, ParseError>)
      requires Valid() && currentToken == OPEN
      modifies this`currentToken, lexer
      ensures Valid() && Gives(r, Left(), ParseParen(binopPrecedence, Next(old(Left()))))
      decreases |Left()|, 0
    {
      hide Left, Valid, ParseExpression;
      GetNextToken();
      var v :- ParseExpr();
      if currentToken != CLOSE {
        return Err(ExpectedClose);
      }
      GetNextToken();
      return Ok(v);
    }

    method ParseIdentifierExpr() returns (r: Result<A.Expr, ParseError>)
      requires Valid() && currentToken.Identifier?
      modifies this`currentToken, lexer
      ensures Valid() && Gives(r, Left(), ParseIdentifier(binopPrecedence, old(currentToken).name, Next(old(Left()))))
      decreases |Left()|, 0
    {
      hide ParseExpression, Left;
      ghost var whole := |Left()|;
      var ident := lexer.identifier;
      hide Valid;
      GetNextToken();
      if currentToken != OPEN {
        return Ok(A.Variable(ident));
      }
      GetNextToken();
      var args: seq<A.Expr> := [];
      if currentToken != CLOSE {
        ghost var s := Left();
        PrependNone(ParseArgs(binopPrecedence, s));
        while true
          invariant Valid() && |Left()| < whole
          invariant Prepend(args, ParseArgs(binopPrecedence, Left())) == ParseArgs(binopPrecedence, s)
          decreases |Left()|
        {
          ghost var t := Left();
          var arg :- ParseExpr();
          PrependOne(args, arg, ParseArgs(binopPrecedence, Next(Left())));
          args := args + [arg];
          if currentToken == CLOSE {
            break;
          }
          if currentToken != COMMA {
            return Err(ExpectedCloseOrComma);
          }
          GetNextToken();
        }
      }
      GetNextToken();
      return Ok(A.Call(ident, args));
    }

    method ParseIfExpr() returns (r: Result<A.Expr, ParseError>)
      requires Valid() && currentToken == Token.If
      modifies this`currentToken, lexer
      ensures Valid() && Gives(r, Left(), ParseIf(binopPrecedence, Next(old(Left()))))
      decreases |Left()|, 0
    {
      hide ParseExpression, Valid, Left;
      GetNextToken();
      var c :- ParseExpr();
      if currentToken != Token.Then {
        return Err(ExpectedThen);
      }
      GetNextToken();
      var x :- ParseExpr();
      if currentToken != Token.Else {
        return Err(ExpectedElse);
      }
      GetNextToken();
      var y :- ParseExpr();
      return Ok(A.If(c, x, y));
    }

    /** The optional parts of `for` and `var`: an expression if token `k` comes first. */
    method ParseOptional(k: Token) returns (r: Result<Option<A.Expr>, ParseError>)
      requires Valid() && (k == COMMA || k == EQUALS)
      modifies this`currentToken, lexer
      ensures Valid()
      ensures Gives(r, Left(), if k == COMMA then ParseStep(binopPrecedence, old(Left()))
                               else ParseInit(binopPrecedence, old(Left())))
      decreases |Left()|, 4
    {
      hide ParseExpression, Left, Valid;
      if currentToken != k {
        return Ok(None);
      }
      GetNextToken();
      var e :- ParseExpr();
      return Ok(Some(e));
    }

    method ParseForExpr() returns (r: Result<A.Expr, ParseError>)
      requires Valid() && currentToken == Token.For
      modifies this`currentToken, lexer
      ensures Valid() && Gives(r, Left(), ParseFor(binopPrecedence, Next(old(Left()))))
      decreases |Left()|, 0
    {
      hide ParseExpression, ParseStep, Left;
      GetNextToken();
      if !currentToken.Identifier? {
        return Err(ExpectedForName);
      }
      var idName := lexer.identifier;
      hide Valid;
      GetNextToken();
      if currentToken != EQUALS {
        return Err(ExpectedForEquals);
      }
      GetNextToken();
      var start :- ParseExpr();
      if currentToken != COMMA {
        return Err(ExpectedForComma);
      }
      GetNextToken();
      var end :- ParseExpr();
      var step :- ParseOptional(COMMA);
      if currentToken != Token.In {
        return Err(ExpectedForIn);
      }
      GetNextToken();
      var body :- ParseExpr();
      return Ok(A.For(idName, start, end, step, body));
    }

    /** The loop over the names of a `var` list. */
    method ParseVarNames() returns (r: Result<seq<A.Binding>, ParseError>)
      requires Valid() && currentToken.Identifier?
      modifies this`currentToken, lexer
      ensures Valid() && Gives(r, Left(), ParseBindings(binopPrecedence, old(Left())))
      decreases |Left()|, 5
    {
      hide ParseInit, Left;
      var varNames: seq<A.Binding> := [];
      ghost var s := Left();
      PrependNone(ParseBindings(binopPrecedence, s));
      while true
        invariant Valid() && currentToken.Identifier? && |Left()| <= |s|
        invariant Prepend(varNames, ParseBindings(binopPrecedence, Left())) == ParseBindings(binopPrecedence, s)
        decreases |Left()|
      {
        var name := lexer.identifier;
        GetNextToken();
        var init :- ParseOptional(EQUALS);
        var b := A.Binding(name, init);
        if currentToken == COMMA && Head(Next(Left())).Identifier? {
          PrependOne(varNames, b, ParseBindings(binopPrecedence, Next(Left())));
        }
        varNames := varNames + [b];
        if currentToken != COMMA {
          break;
        }
        GetNextToken();
        if !currentToken.Identifier? {
          return Err(ExpectedVarList);
        }
      }
      return Ok(varNames);
    }

    method ParseVarExpr() returns (r: Result<A.Expr, ParseError>)
      requires Valid() && currentToken == Token.Var
      modifies this`currentToken, lexer
      ensures Valid() && Gives(r, Left(), ParseVar(binopPrecedence, Next(old(Left()))))
      decreases |Left()|, 0
    {
      hide ParseExpression, ParseBindings, Left, Valid;
      GetNextToken();
      if !currentToken.Identifier? {
        return Err(ExpectedVarName);
      }
      var varNames :- ParseVarNames();
      if currentToken != Token.In {
        return Err(ExpectedVarIn);
      }
      GetNextToken();
      var body :- ParseExpr();
      return Ok(A.VarIn(varNames, body));
    }

    method ParsePrimaryExpr() returns (r: Result<A.Expr, ParseError>)
      requires Valid()
      modifies this`currentToken, lexer
      ensures Valid() && Gives(r, Left(), ParsePrimary(binopPrecedence, old(Left())))
      decreases |Left()|, 1
    {
      hide ParseIdentifier, ParseIf, ParseFor, ParseVar, ParseParen, Left;
      match currentToken
      case Number(_) => r := ParseNumberExpr();
      case Identifier(_) => r := ParseIdentifierExpr();
      case If => r := ParseIfExpr();
      case For => r := ParseForExpr();
      case Var => r := ParseVarExpr();
      case Char(c) =>
        if c == '(' {
          r := ParseParenExpr();
        } else {
          r := Err(UnknownToken);
        }
      case _ => r := Err(UnknownToken);
    }

    method ParseExpr() returns (r: Result<A.Expr, ParseError>)
      requires Valid()
      modifies this`currentToken, lexer
      ensures Valid() && Gives(r, Left(), ParseExpression(binopPrecedence, old(Left())))
      decreases |Left()|, 3
    {
      hide ParseUnary, ParseBinOpRHS, Valid, Left;
      var lhs :- ParseUnaryExpr();
      r := ParseBinaryRHS(0, lhs);
    }

    method ParseUnaryExpr() returns (r: Result<A.Expr, ParseError>)
      requires Valid()
      modifies this`currentToken, lexer
      ensures Valid() && Gives(r, Left(), ParseUnary(binopPrecedence, old(Left())))
      decreases |Left()|, 2
    {
      hide ParsePrimary, Valid, Left;
      if !UnaryToken(currentToken) {
        r := ParsePrimaryExpr();
        return;
      }
      var opc := currentToken.c;
      GetNextToken();
      var operand :- ParseUnaryExpr();
      return Ok(A.Unary(opc, operand));
    }

    method ParseBinaryRHS(prec: nat, first: A.Expr) returns (r: Result<A.Expr, ParseError>)
      requires Valid()
      modifies this`currentToken, lexer
      ensures Valid() && Gives(r, Left(), ParseBinOpRHS(binopPrecedence, prec, first, old(Left())))
      decreases |Left()|, 0
    {
      hide ParseUnary, Valid, Left;
      var lhs := first;
      while true
        invariant Valid() && |Left()| <= |old(Left())|
        invariant ParseBinOpRHS(binopPrecedence, prec, lhs, Left())
                  == ParseBinOpRHS(binopPrecedence, prec, first, old(Left()))
        decreases |Left()|
      {
        var tokPrec := TokPrecedence();
        if tokPrec < prec {
          return Ok(lhs);
        }
        var binOp := currentToken.c;
        GetNextToken();
        var rhs :- ParseUnaryExpr();
        var nextPrec := TokPrecedence();
        if tokPrec < nextPrec {
          rhs :- ParseBinaryRHS(tokPrec + 1, rhs);
        }
        lhs := A.Binary(binOp, lhs, rhs);
      }
    }

    /** The name of a prototype, with the operand count and precedence of an operator. */
    method ParseProtoName() returns (r: Result<Name, ParseError>)
      requires Valid()
      modifies this`currentToken, lexer
      ensures Valid() && Gives(r, Left(), ParseName(value, old(Left())))
    {
      hide Left;
      match currentToken
      case Identifier(_) =>
        r := Ok(Name(lexer.identifier, None, DEFAULT_PRECEDENCE));
        GetNextToken();
      case Unary =>
        GetNextToken();
        if !(currentToken.Char? && Ascii(currentToken.c)) {
          return Err(ExpectedUnaryOperator);
        }
        r := Ok(Name(A.UnaryName(currentToken.c), Some(1), DEFAULT_PRECEDENCE));
        GetNextToken();
      case Binary =>
        GetNextToken();
        if !(currentToken.Char? && Ascii(currentToken.c)) {
          return Err(ExpectedBinaryOperator);
        }
        var fnName, precedence := A.BinaryName(currentToken.c), DEFAULT_PRECEDENCE;
        GetNextToken();
        if currentToken.Number? {
          var n := value(lexer.number);
          if n < 1.0 || n > 100.0 {
            return Err(InvalidPrecedence);
          }
          precedence := n.Floor;
          GetNextToken();
        }
        return Ok(Name(fnName, Some(2), precedence));
      case _ => r := Err(ExpectedFunctionName);
    }

    method ParseProto() returns (r: Result<A.Prototype, ParseError>)
      requires Valid()
      modifies this`currentToken, lexer
      ensures Valid() && Gives(r, Left(), ParsePrototype(value, old(Left())))
    {
      hide Left, ParseName;
      var name :- ParseProtoName();
      if currentToken != OPEN {
        return Err(ExpectedOpen);
      }
      var argNames: seq<string> := [];
      GetNextToken();
      ghost var s := Left();
      PrependNone(ParseParams(s));
      while currentToken.Identifier?
        invariant Valid() && Prepend(argNames, ParseParams(Left())) == ParseParams(s)
        decreases |Left()|
      {
        var x := lexer.identifier;
        GetNextToken();
        if currentToken == CLOSE {
          argNames := argNames + [x];
          break;
        }
        if currentToken != COMMA {
          return Err(ExpectedCloseOrComma);
        }
        PrependOne(argNames, x, ParseParams(Next(Left())));
        argNames := argNames + [x];
        GetNextToken();
      }
      if currentToken != CLOSE {
        return Err(ExpectedClose);
      }
      assert argNames + [] == argNames;
      assert ParseParams(s) == Good(argNames, Next(Left()));
      GetNextToken();
      if name.arity.Some? && |argNames| != name.arity.value {
        return Err(WrongOperandCount);
      }
      return Ok(A.Prototype(name.name, argNames, name.arity.Some?, name.precedence));
    }

    method ParseDef() returns (r: Result<A.Definition, ParseError>)
      requires Valid() && currentToken == Def
      modifies this`currentToken, lexer
      ensures Valid() && Gives(r, Left(), ParseDefinition(value, binopPrecedence, old(Left())))
    {
      hide Left, Valid, ParsePrototype, ParseExpression;
      GetNextToken();
      var proto :- ParseProto();
      var body :- ParseExpr();
      return Ok(A.Definition(proto, body));
    }

    method ParseTopLevelExpr() returns (r: Result<A.Definition, ParseError>)
      requires Valid()
      modifies this`currentToken, lexer
      ensures Valid() && Gives(r, Left(), ParseTopLevel(binopPrecedence, old(Left())))
    {
      hide Left, Valid, ParseExpression;
      var body :- ParseExpr();
      return Ok(A.Definition(ANONYMOUS, body));
    }

    method ParseExternDecl() returns (r: Result<A.Prototype, ParseError>)
      requires Valid() && currentToken == Extern
      modifies this`currentToken, lexer
      ensures Valid() && Gives(r, Left(), ParseExtern(value, old(Left())))
    {
      hide Left, Valid, ParsePrototype;
      GetNextToken();
      r := ParseProto();
    }
  }

  lemma LexFirst(r: string)
    ensures var (k, r') := GetTok(r); if k == Eof then Lex(r) == [] && Lex(r') == [] else Lex(r) == [k] + Lex(r')
  {
    var (k, r') := GetTok(r);
    if k == Eof {
      assert r' == "" && SkipSpace("") == "";
    }
  }

  lemma LeadingSpace(text: string)
    ensures Lex(" " + text) == Lex(text)
  {
    SpaceSkipped(' ', text);
  }
}
