/** Every well-formed tree is parsed: its tokens give back the expression and stop exactly at their end. */
module GrammarComplete {
  import opened Prelude
  import A = Ast
  import opened Tokens
  import opened Parsing
  import opened Grammar

  lemma HeadNext(k: Token, s: seq<Token>)
    ensures Head([k] + s) == k && Next([k] + s) == s
  {
  }

  /** The first operand of a binary tree is followed by an operator at least as tight as the root. */
  lemma {:induction false} FirstOperator(t: Table, x: Tree)
    requires x.TBinary? && WF(t, x)
    ensures WF(t, First(x)) && Tail(x) != [] && Edge(t, First(x), Tail(x)[0])
            && Prec(t, Tail(x)[0]) >= Prec(t, Char(x.op))
  {
    hide Yield;
    if x.lhs.TBinary? {
      FirstOperator(t, x.lhs);
    }
  }

  /** An expression: the first operand is read, then the rest of its left spine. */
  lemma {:induction false} ExpressionParsed(t: Table, x: Tree, rest: seq<Token>)
    requires WF(t, x) && Closed(t, x, Head(rest))
    ensures ParseExpression(t, Yield(x) + rest) == Good(Strip(x), rest)
    decreases x, 5
  {
    hide ParseUnary, WF, Edge, Yield, Strip;
    YieldSplits(x);
    assert Yield(x) + rest == Yield(First(x)) + (Tail(x) + rest);
    PositiveRoot(t, x);
    assert Edge(t, x, Head(rest)) && Prec(t, Head(rest)) < 0;
    FirstParsed(t, x, rest);
    SpineParsed(t, x, 0, rest);
    RhsStops(t, 0, Strip(x), rest);
  }

  lemma PositiveRoot(t: Table, x: Tree)
    requires WF(t, x)
    ensures forall p :: p <= 0 ==> Tighter(t, x, p)
  {
  }

  lemma {:induction false} FirstParsed(t: Table, x: Tree, rest: seq<Token>)
    requires WF(t, x) && Edge(t, x, Head(rest))
    ensures ParseUnary(t, Yield(First(x)) + (Tail(x) + rest)) == Good(Strip(First(x)), Tail(x) + rest)
    decreases x, 4
  {
    hide ParseUnary, Yield, Strip, Edge;
    if x.TBinary? {
      FirstParsed(t, x.lhs, [Char(x.op)] + (Yield(x.rhs) + rest));
      HeadNext(Char(x.op), Yield(x.rhs) + rest);
      assert Tail(x) + rest == Tail(x.lhs) + ([Char(x.op)] + (Yield(x.rhs) + rest));
    } else {
      assert Tail(x) + rest == rest;
      UnaryParsed(t, x, rest);
    }
  }

  /** Reading the rest of a left spine builds the tree, if the token after it binds no tighter than the root. */
  lemma {:induction false} SpineParsed(t: Table, x: Tree, prec: nat, rest: seq<Token>)
    requires WF(t, x) && Tighter(t, x, prec) && Edge(t, x, Head(rest)) && Tighter(t, x, Prec(t, Head(rest)))
    ensures ParseBinOpRHS(t, prec, Strip(First(x)), Tail(x) + rest) == ParseBinOpRHS(t, prec, Strip(x), rest)
    decreases x, 4
  {
    hide ParseUnary, Yield, Edge, ParseBinOpRHS;
    if x.TBinary? {
      var k, l, r := Char(x.op), x.lhs, x.rhs;
      var p := Prec(t, k);
      var after := [k] + (Yield(r) + rest);
      HeadNext(k, Yield(r) + rest);
      assert Tail(x) + rest == Tail(l) + after;
      SpineParsed(t, l, prec, after);
      RightEdge(t, x, Head(rest));
      FirstParsed(t, r, rest);
      YieldSplits(r);
      assert Yield(r) + rest == Yield(First(r)) + (Tail(r) + rest);
      if r.TBinary? {
        FirstOperator(t, r);
        assert Head(Tail(r) + rest) == Tail(r)[0];
        SpineParsed(t, r, p + 1, rest);
        RhsStops(t, p + 1, Strip(r), rest);
      } else {
        assert Tail(r) + rest == rest;
      }
      OperatorStep(t, prec, Strip(l), after, Strip(First(r)), Tail(r) + rest, Strip(r), rest);
    } else {
      assert Tail(x) + rest == rest;
    }
  }

  lemma RightEdge(t: Table, x: Tree, k: Token)
    requires x.TBinary? && Edge(t, x, k)
    ensures Edge(t, x.rhs, k)
  {
  }

  lemma RhsStops(t: Table, prec: nat, lhs: A.Expr, s: seq<Token>)
    requires Prec(t, Head(s)) < prec
    ensures ParseBinOpRHS(t, prec, lhs, s) == Good(lhs, s)
  {
  }

  /** One turn of the loop in `parseBinOpRHS`. */
  lemma OperatorStep(t: Table, prec: nat, lhs: A.Expr, s: seq<Token>, operand: A.Expr, s1: seq<Token>, rhs: A.Expr,
                     s2: seq<Token>)
    requires Prec(t, Head(s)) >= prec && ParseUnary(t, Next(s)) == Good(operand, s1)
    requires if Prec(t, Head(s)) < Prec(t, Head(s1))
             then ParseBinOpRHS(t, Prec(t, Head(s)) + 1, operand, s1) == Good(rhs, s2)
             else rhs == operand && s2 == s1
    ensures Head(s).Char? && ParseBinOpRHS(t, prec, lhs, s) == ParseBinOpRHS(t, prec, A.Binary(Head(s).c, lhs, rhs), s2)
  {
    hide ParseUnary;
  }

  /** A tree that is not a binary operation is read by `parseUnary`. */
  lemma {:induction false} UnaryParsed(t: Table, x: Tree, rest: seq<Token>)
    requires WF(t, x) && !x.TBinary? && Edge(t, x, Head(rest))
    ensures ParseUnary(t, Yield(x) + rest) == Good(Strip(x), rest)
    decreases x, 3
  {
    hide ParsePrimary, ParseUnary, WFArgs, WFBindings, YieldArgs, YieldBindings, StripAll, StripBindings;
    if x.TUnary? {
      assert Yield(x) + rest == [Char(x.op)] + (Yield(x.operand) + rest);
      HeadNext(Char(x.op), Yield(x.operand) + rest);
      UnaryParsed(t, x.operand, rest);
      UnaryStep(t, Yield(x) + rest);
    } else {
      assert Head(Yield(x) + rest) == Yield(x)[0];
      PrimaryParsed(t, x, rest);
      UnaryStep(t, Yield(x) + rest);
    }
  }

  lemma UnaryStep(t: Table, s: seq<Token>)
    ensures !UnaryToken(Head(s)) ==> ParseUnary(t, s) == ParsePrimary(t, s)
    ensures UnaryToken(Head(s)) && ParseUnary(t, Next(s)).Good?
            ==> ParseUnary(t, s) == Good(A.Unary(Head(s).c, ParseUnary(t, Next(s)).value), ParseUnary(t, Next(s)).rest)
  {
    hide ParsePrimary;
  }

  lemma {:induction false} PrimaryParsed(t: Table, x: Tree, rest: seq<Token>)
    requires WF(t, x) && !x.TBinary? && !x.TUnary? && Edge(t, x, Head(rest))
    ensures ParsePrimary(t, Yield(x) + rest) == Good(Strip(x), rest)
    decreases x, 2
  {
    hide ParseUnary, ParseExpression, ParseFor, ParseIf, ParseVar, ParseArgs, WFArgs, WFBindings, YieldArgs,
        YieldBindings, StripAll, StripBindings;
    match x
    case TNumber(text) => HeadNext(Number(text), rest);
    case TVariable(name) => HeadNext(Identifier(name), rest);
    case TParen(y) =>
      assert Yield(x) + rest == [OPEN] + (Yield(y) + ([CLOSE] + rest));
      HeadNext(OPEN, Yield(y) + ([CLOSE] + rest));
      HeadNext(CLOSE, rest);
      ExpressionParsed(t, y, [CLOSE] + rest);
    case TCall(f, args) => CallParsed(t, x, rest);
    case TIf(_, _, _) => IfParsed(t, x, rest);
    case TFor(_, _, _, _, _) => ForParsed(t, x, rest);
    case TVar(_, _) => VarParsed(t, x, rest);
  }

  lemma {:induction false} CallParsed(t: Table, x: Tree, rest: seq<Token>)
    requires x.TCall? && WF(t, x)
    ensures ParsePrimary(t, Yield(x) + rest) == Good(Strip(x), rest)
    decreases x, 1
  {
    hide ParseUnary, ParseExpression, ParseArgs;
    var args := x.args;
    var inner := YieldArgs(args) + ([CLOSE] + rest);
    assert Yield(x) + rest == [Identifier(x.callee)] + ([OPEN] + inner);
    HeadNext(Identifier(x.callee), [OPEN] + inner);
    HeadNext(OPEN, inner);
    HeadNext(CLOSE, rest);
    if args == [] {
      assert inner == [CLOSE] + rest;
    } else {
      ArgsParsed(t, args, rest);
      assert Head(inner) == Yield(args[0])[0];
    }
  }

  lemma {:induction false} ArgsParsed(t: Table, args: seq<Tree>, rest: seq<Token>)
    requires args != [] && WFArgs(t, args)
    ensures ParseArgs(t, YieldArgs(args) + ([CLOSE] + rest)) == Good(StripAll(args), rest)
    decreases args, 0
  {
    hide ParseExpression, Yield, Strip, WF, Closed;
    HeadNext(CLOSE, rest);
    if |args| == 1 {
      ExpressionParsed(t, args[0], [CLOSE] + rest);
      assert StripAll(args) == [Strip(args[0])];
    } else {
      var more := YieldArgs(args[1..]) + ([CLOSE] + rest);
      assert YieldArgs(args) + ([CLOSE] + rest) == Yield(args[0]) + ([COMMA] + more);
      HeadNext(COMMA, more);
      ExpressionParsed(t, args[0], [COMMA] + more);
      ArgsParsed(t, args[1..], rest);
    }
  }

  lemma {:induction false} IfParsed(t: Table, x: Tree, rest: seq<Token>)
    requires x.TIf? && WF(t, x) && Edge(t, x, Head(rest))
    ensures ParsePrimary(t, Yield(x) + rest) == Good(Strip(x), rest)
    decreases x, 1
  {
    hide ParseUnary, ParseExpression, ParseIf, ParsePrimary, Closed;
    var c, y, z := x.cond, x.thn, x.els;
    var s2 := [Token.Else] + (Yield(z) + rest);
    var s1 := [Token.Then] + (Yield(y) + s2);
    IfYield(c, y, z, rest);
    hide Yield, Strip, WF, Edge;
    IfParts(t, x, Head(rest));
    HeadNext(Token.If, Yield(c) + s1);
    HeadNext(Token.Then, Yield(y) + s2);
    HeadNext(Token.Else, Yield(z) + rest);
    KeywordEnds(t, c, Token.Then);
    KeywordEnds(t, y, Token.Else);
    ExpressionParsed(t, c, s1);
    ExpressionParsed(t, y, s2);
    ExpressionParsed(t, z, rest);
    PrimaryKeyword(t, Yield(x) + rest);
    IfRead(t, Yield(c) + s1, Strip(c), s1, Strip(y), s2, Strip(z), rest);
  }

  lemma IfRead(t: Table, s: seq<Token>, c: A.Expr, s1: seq<Token>, y: A.Expr, s2: seq<Token>, z: A.Expr, s3: seq<Token>)
    requires ParseExpression(t, s) == Good(c, s1) && Head(s1) == Token.Then
    requires ParseExpression(t, Next(s1)) == Good(y, s2) && Head(s2) == Token.Else
             && ParseExpression(t, Next(s2)) == Good(z, s3)
    ensures ParseIf(t, s) == Good(A.If(c, y, z), s3)
  {
    hide ParseExpression;
  }

  lemma PrimaryKeyword(t: Table, s: seq<Token>)
    ensures Head(s) == Token.If ==> ParsePrimary(t, s) == ParseIf(t, Next(s))
    ensures Head(s) == Token.For ==> ParsePrimary(t, s) == ParseFor(t, Next(s))
  {
    hide ParseIf, ParseFor;
  }

  lemma IfParts(t: Table, x: Tree, k: Token)
    requires x.TIf? && WF(t, x) && Edge(t, x, k)
    ensures WF(t, x.cond) && WF(t, x.thn) && WF(t, x.els) && Closed(t, x.els, k)
    ensures Strip(x) == A.If(Strip(x.cond), Strip(x.thn), Strip(x.els))
  {
  }


  lemma {:induction false} ForParsed(t: Table, x: Tree, rest: seq<Token>)
    requires x.TFor? && WF(t, x) && Edge(t, x, Head(rest))
    ensures ParsePrimary(t, Yield(x) + rest) == Good(Strip(x), rest)
    decreases x, 1
  {
    hide ParseUnary, ParseExpression, ParseFor, ParseStep, ParsePrimary, Closed;
    var s3 := [Token.In] + (Yield(x.body) + rest);
    var s2 := YieldAfter(COMMA, x.step) + s3;
    var s1 := [COMMA] + (Yield(x.end) + s2);
    ForYield(x, rest);
    hide Yield, Strip, WF, Edge;
    ForParts(t, x, Head(rest));
    HeadNext(Token.For, [Identifier(x.name)] + ([EQUALS] + (Yield(x.start) + s1)));
    HeadNext(Identifier(x.name), [EQUALS] + (Yield(x.start) + s1));
    HeadNext(EQUALS, Yield(x.start) + s1);
    HeadNext(COMMA, Yield(x.end) + s2);
    HeadNext(Token.In, Yield(x.body) + rest);
    ExpressionParsed(t, x.start, s1);
    StepParsed(t, x, s3);
    ExpressionParsed(t, x.end, s2);
    ExpressionParsed(t, x.body, rest);
    var step := StripOption(x.step);
    PrimaryKeyword(t, Yield(x) + rest);
    ForRead(t, x.name, Yield(x.start) + s1, Strip(x.start), s1, Strip(x.end), s2, step, s3, Strip(x.body), rest);
  }

  lemma ForYield(x: Tree, rest: seq<Token>)
    requires x.TFor?
    ensures Yield(x) + rest
            == [Token.For] + ([Identifier(x.name)]
                + ([EQUALS] + (Yield(x.start)
                    + ([COMMA] + (Yield(x.end)
                        + (YieldAfter(COMMA, x.step) + ([Token.In] + (Yield(x.body) + rest))))))))
  {
    hide YieldAfter;
    var p := [Token.For, Identifier(x.name), EQUALS];
    var e := YieldAfter(COMMA, x.step) + ([Token.In] + (Yield(x.body) + rest));
    ForUnfolded(x);
    hide Yield;
    var front := p + Yield(x.start) + [COMMA] + Yield(x.end);
    Regroup(front, YieldAfter(COMMA, x.step), [Token.In], Yield(x.body), rest);
    Regroup(p, Yield(x.start), [COMMA], Yield(x.end), e);
    var s := Yield(x.start) + ([COMMA] + (Yield(x.end) + e));
    assert p + s == [Token.For] + ([Identifier(x.name)] + ([EQUALS] + s));
  }

  lemma ForParts(t: Table, x: Tree, k: Token)
    requires x.TFor? && WF(t, x) && Edge(t, x, k)
    ensures WF(t, x.start) && Closed(t, x.start, COMMA) && WF(t, x.end) && WF(t, x.body) && Closed(t, x.body, k)
    ensures Strip(x) == A.For(x.name, Strip(x.start), Strip(x.end), StripOption(x.step), Strip(x.body))
  {
  }

  lemma ForUnfolded(x: Tree)
    requires x.TFor?
    ensures Yield(x) == [Token.For, Identifier(x.name), EQUALS] + Yield(x.start) + [COMMA] + Yield(x.end)
            + YieldAfter(COMMA, x.step) + [Token.In] + Yield(x.body)
  {
  }

  lemma IfYield(c: Tree, y: Tree, z: Tree, rest: seq<Token>)
    ensures Yield(TIf(c, y, z)) + rest == [Token.If]
            + (Yield(c) + ([Token.Then] + (Yield(y) + ([Token.Else] + (Yield(z) + rest)))))
  {
    assert Yield(TIf(c, y, z)) == [Token.If] + Yield(c) + [Token.Then] + Yield(y) + [Token.Else] + Yield(z);
    hide Yield;
    Regroup([Token.If] + Yield(c) + [Token.Then], Yield(y), [Token.Else], Yield(z), rest);
    Regroup([Token.If], Yield(c), [Token.Then], Yield(y), [Token.Else] + (Yield(z) + rest));
  }

  lemma VarYield(bs: seq<TreeBinding>, body: Tree, rest: seq<Token>)
    ensures Yield(TVar(bs, body)) + rest == [Token.Var] + (YieldBindings(bs) + ([Token.In] + (Yield(body) + rest)))
  {
    hide YieldBindings;
    assert Yield(TVar(bs, body)) == [Token.Var] + YieldBindings(bs) + [Token.In] + Yield(body);
    hide Yield;
    Regroup([Token.Var], YieldBindings(bs), [Token.In], Yield(body), rest);
  }

  lemma BinaryYield(op: char, l: Tree, r: Tree, rest: seq<Token>)
    ensures Yield(TBinary(op, l, r)) + rest == Yield(l) + ([Char(op)] + (Yield(r) + rest))
  {
    assert Yield(TBinary(op, l, r)) == Yield(l) + [Char(op)] + Yield(r);
    hide Yield;
    RegroupThree(Yield(l), [Char(op)], Yield(r), rest);
  }

  lemma ParenYield(y: Tree, rest: seq<Token>)
    ensures Yield(TParen(y)) + rest == [OPEN] + (Yield(y) + ([CLOSE] + rest))
  {
    assert Yield(TParen(y)) == [OPEN] + Yield(y) + [CLOSE];
    hide Yield;
    RegroupThree([OPEN], Yield(y), [CLOSE], rest);
  }

  lemma ForRead(t: Table, name: string, s: seq<Token>, start: A.Expr, s1: seq<Token>, end: A.Expr, s2: seq<Token>,
                step: Option<A.Expr>, s3: seq<Token>, body: A.Expr, s4: seq<Token>)
    requires ParseExpression(t, s) == Good(start, s1) && Head(s1) == COMMA
    requires ParseExpression(t, Next(s1)) == Good(end, s2) && ParseStep(t, s2) == Good(step, s3) && Head(s3) == Token.In
    requires ParseExpression(t, Next(s3)) == Good(body, s4)
    ensures ParseFor(t, [Identifier(name)] + ([EQUALS] + s)) == Good(A.For(name, start, end, step, body), s4)
  {
    hide ParseExpression, ParseStep;
    HeadNext(Identifier(name), [EQUALS] + s);
    HeadNext(EQUALS, s);
  }

  lemma {:induction false} StepParsed(t: Table, x: Tree, rest: seq<Token>)
    requires x.TFor? && WF(t, x) && Head(rest) == Token.In
    ensures var s := YieldAfter(COMMA, x.step) + rest;
            Closed(t, x.end, Head(s)) && ParseStep(t, s) == Good(StripOption(x.step), rest)
    decreases x, 0
  {
    hide ParseExpression, Closed, Yield, Strip;
    if x.step.Some? {
      var y := x.step.value;
      assert [COMMA] + Yield(y) + rest == [COMMA] + (Yield(y) + rest);
      HeadNext(COMMA, Yield(y) + rest);
      KeywordEnds(t, y, Token.In);
      ExpressionParsed(t, y, rest);
    } else {
      assert [] + rest == rest;
      KeywordEnds(t, x.end, Token.In);
    }
  }

  lemma {:induction false} VarParsed(t: Table, x: Tree, rest: seq<Token>)
    requires x.TVar? && WF(t, x) && Edge(t, x, Head(rest))
    ensures ParsePrimary(t, Yield(x) + rest) == Good(Strip(x), rest)
    decreases x, 1
  {
    hide ParseUnary, ParseExpression, Closed, ParseBindings;
    var s1 := [Token.In] + (Yield(x.body) + rest);
    VarYield(x.bindings, x.body, rest);
    HeadNext(Token.Var, YieldBindings(x.bindings) + s1);
    HeadNext(Token.In, Yield(x.body) + rest);
    BindingsParsed(t, x.bindings, s1);
    ExpressionParsed(t, x.body, rest);
  }

  lemma {:induction false} BindingsParsed(t: Table, bs: seq<TreeBinding>, rest: seq<Token>)
    requires bs != [] && WFBindings(t, bs) && Head(rest) == Token.In
    ensures Head(YieldBindings(bs) + rest).Identifier?
    ensures ParseBindings(t, YieldBindings(bs) + rest) == Good(StripBindings(bs), rest)
    decreases bs, 1
  {
    hide Closed, ParseInit, ParseBindings, Yield, Strip, WF;
    var more := if |bs| == 1 then rest else [COMMA] + (YieldBindings(bs[1..]) + rest);
    var s := YieldAfter(EQUALS, bs[0].init) + more;
    BindingsYield(bs, rest);
    HeadNext(Identifier(bs[0].name), s);
    InitParsed(t, bs, more);
    if |bs| > 1 {
      HeadNext(COMMA, YieldBindings(bs[1..]) + rest);
      BindingsParsed(t, bs[1..], rest);
    }
    var init := StripOption(bs[0].init);
    BindingsRead(t, bs[0].name, s, init, more, StripBindings(bs[1..]), rest, |bs| > 1);
  }

  lemma BindingsYield(bs: seq<TreeBinding>, rest: seq<Token>)
    requires bs != []
    ensures YieldBindings(bs) + rest
            == [Identifier(bs[0].name)]
               + (YieldAfter(EQUALS, bs[0].init)
                  + if |bs| == 1 then rest else [COMMA] + (YieldBindings(bs[1..]) + rest))
  {
    hide Yield, YieldAfter;
    if |bs| > 1 {
      Regroup([Identifier(bs[0].name)], YieldAfter(EQUALS, bs[0].init), [COMMA], YieldBindings(bs[1..]), rest);
    }
  }

  lemma Regroup(a: seq<Token>, b: seq<Token>, c: seq<Token>, d: seq<Token>, rest: seq<Token>)
    ensures a + b + c + d + rest == a + (b + (c + (d + rest)))
  {
  }

  lemma RegroupThree(a: seq<Token>, b: seq<Token>, c: seq<Token>, rest: seq<Token>)
    ensures a + b + c + rest == a + (b + (c + rest))
  {
  }

  lemma BindingsRead(t: Table, name: string, s: seq<Token>, init: Option<A.Expr>, s1: seq<Token>,
                     more: seq<A.Binding>, s2: seq<Token>, comma: bool)
    requires ParseInit(t, s) == Good(init, s1) && (comma <==> Head(s1) == COMMA)
    requires if comma then Head(Next(s1)).Identifier? && ParseBindings(t, Next(s1)) == Good(more, s2)
             else more == [] && s2 == s1
    ensures ParseBindings(t, [Identifier(name)] + s) == Good([A.Binding(name, init)] + more, s2)
  {
    hide ParseInit;
    HeadNext(Identifier(name), s);
    assert [A.Binding(name, init)] + [] == [A.Binding(name, init)];
  }

  lemma {:induction false} InitParsed(t: Table, bs: seq<TreeBinding>, rest: seq<Token>)
    requires bs != [] && WFBindings(t, bs) && Head(rest) == if |bs| == 1 then Token.In else COMMA
    ensures ParseInit(t, YieldAfter(EQUALS, bs[0].init) + rest) == Good(StripOption(bs[0].init), rest)
    decreases bs, 0
  {
    hide ParseExpression, Closed, Yield, Strip, WF;
    if bs[0].init.Some? {
      var y := bs[0].init.value;
      assert [EQUALS] + Yield(y) + rest == [EQUALS] + (Yield(y) + rest);
      HeadNext(EQUALS, Yield(y) + rest);
      if |bs| == 1 {
        KeywordEnds(t, y, Token.In);
      }
      ExpressionParsed(t, y, rest);
    } else {
      assert [] + rest == rest;
    }
  }
}
