/**
 Where the parser gives up: at the first token with which the tokens read so far cannot be continued.
 An error depends on nothing behind that token, and the tokens in front of it begin some expression.
 */
module Offending {
  import opened Prelude
  import A = Ast
  import opened Tokens
  import opened Parsing
  import opened Reading
  import opened Grammar
  import opened GrammarComplete
  import opened GrammarSound
  import opened Printer

  // ----- What is behind the current token does not matter -----

  /** The tokens of `s` in front of what is left. */
  function Used(s: seq<Token>, rest: seq<Token>): seq<Token>
    requires |rest| <= |s|
  {
    s[..|s| - |rest|]
  }

  /** `s` and `s'` are the same up to `r` and `r'`, which have the same first token. */
  ghost predicate Swapped(s: seq<Token>, r: seq<Token>, s': seq<Token>, r': seq<Token>) {
    && Remains(r, s) && Remains(r', s') && |s| - |r| == |s'| - |r'|
    && Used(s, r) == Used(s', r') && Head(r) == Head(r')
  }

  function With<T>(r: Reply<T>, rest: seq<Token>): Reply<T> {
    if r.Good? then Good(r.value, rest) else Fail(r.error, rest)
  }

  lemma SwappedHead(s: seq<Token>, r: seq<Token>, s': seq<Token>, r': seq<Token>)
    requires Swapped(s, r, s', r')
    ensures Head(s) == Head(s')
    ensures Remains(r, Next(s)) && s != [] ==> Swapped(Next(s), r, Next(s'), r')
  {
    if |s| > |r| {
      assert s[0] == Used(s, r)[0] == s'[0];
      assert Used(Next(s), r) == Used(s, r)[1..];
      assert Used(Next(s'), r') == Used(s', r')[1..];
    } else {
      assert s == r && s' == r';
    }
  }

  /** What stands in `s'` for something that was left of `s` on the way. */
  function Mid(s: seq<Token>, m: seq<Token>, s': seq<Token>): seq<Token> {
    if |m| <= |s| && |s| - |m| <= |s'| then s'[|s| - |m|..] else []
  }

  lemma SwappedMid(s: seq<Token>, m: seq<Token>, r: seq<Token>, s': seq<Token>, r': seq<Token>)
    requires Swapped(s, r, s', r') && Remains(m, s) && Remains(r, m)
    ensures Swapped(s, m, s', Mid(s, m, s')) && Swapped(m, r, Mid(s, m, s'), r')
  {
    var m' := Mid(s, m, s');
    assert Used(s, m) == Used(s, r)[..|s| - |m|] && Used(s', m') == Used(s', r')[..|s| - |m|];
    assert Used(m, r) == Used(s, r)[|s| - |m|..] && Used(m', r') == Used(s', r')[|s| - |m|..];
    if |m| > |r| {
      assert m[0] == Used(m, r)[0] == m'[0];
    } else {
      assert m == r && m' == r';
    }
  }

  /** An expression in the middle: it is read in the same way, and reading goes on alike behind it. */
  lemma {:induction false} Through(t: Table, m: seq<Token>, r: seq<Token>, m': seq<Token>, r': seq<Token>)
    returns (n': seq<Token>)
    requires Swapped(m, r, m', r') && Remains(r, ParseExpression(t, m).rest)
    ensures var u := ParseExpression(t, m);
            && ParseExpression(t, m') == With(u, n') && Swapped(u.rest, r, n', r') && Head(n') == Head(u.rest)
            && (Remains(r, Next(u.rest)) && u.rest != [] ==> Swapped(Next(u.rest), r, Next(n'), r'))
    decreases |m|, 6
  {
    hide ParseExpression, Remains, Swapped, Mid;
    var n := ParseExpression(t, m).rest;
    ExpressionRemains(t, m);
    n' := Mid(m, n, m');
    SwappedMid(m, n, r, m', r');
    ExpressionLocal(t, m, m', n');
    SwappedHead(n, r, n', r');
  }

  lemma {:induction false} ExpressionLocal(t: Table, s: seq<Token>, s': seq<Token>, r': seq<Token>)
    requires Swapped(s, ParseExpression(t, s).rest, s', r')
    ensures ParseExpression(t, s') == With(ParseExpression(t, s), r')
    decreases |s|, 5
  {
    hide ParseUnary, ParseBinOpRHS, Remains, Swapped, Mid;
    var r := ParseExpression(t, s).rest;
    var u := ParseUnary(t, s);
    UnaryRemains(t, s);
    if u.Good? {
      RhsRemains(t, 0, u.value, u.rest);
      var n' := Mid(s, u.rest, s');
      SwappedMid(s, u.rest, r, s', r');
      UnaryLocal(t, s, s', n');
      RhsLocal(t, 0, u.value, u.rest, n', r');
    } else {
      UnaryLocal(t, s, s', r');
    }
  }

  lemma {:induction false} UnaryLocal(t: Table, s: seq<Token>, s': seq<Token>, r': seq<Token>)
    requires Swapped(s, ParseUnary(t, s).rest, s', r')
    ensures ParseUnary(t, s') == With(ParseUnary(t, s), r')
    decreases |s|, 4
  {
    hide ParsePrimary, Remains, Swapped;
    SwappedHead(s, ParseUnary(t, s).rest, s', r');
    if UnaryToken(Head(s)) {
      UnaryRemains(t, Next(s));
      UnaryLocal(t, Next(s), Next(s'), r');
    } else {
      PrimaryLocal(t, s, s', r');
    }
  }

  lemma {:induction false} RhsLocal(t: Table, prec: nat, lhs: A.Expr, s: seq<Token>, s': seq<Token>, r': seq<Token>)
    requires Swapped(s, ParseBinOpRHS(t, prec, lhs, s).rest, s', r')
    ensures ParseBinOpRHS(t, prec, lhs, s') == With(ParseBinOpRHS(t, prec, lhs, s), r')
    decreases |s|, 1
  {
    hide ParseUnary, Remains, Mid;
    var r := ParseBinOpRHS(t, prec, lhs, s).rest;
    SwappedHead(s, r, s', r');
    var p := Prec(t, Head(s));
    if p < prec {
      assert r == s;
      assert s' == r' by { NothingUsed(s, s', r'); }
    } else {
      hide Swapped;
      var u := ParseUnary(t, Next(s));
      UnaryRemains(t, Next(s));
      if u.Fail? {
        UnaryLocal(t, Next(s), Next(s'), r');
      } else {
        OperatorLocal(t, prec, lhs, s, s', r');
      }
    }
  }

  lemma NothingUsed(s: seq<Token>, s': seq<Token>, r': seq<Token>)
    requires Swapped(s, s, s', r')
    ensures s' == r'
  {
  }

  /** The right operand once its first part has been read, and the rest of the loop behind it. */
  function RightOf(t: Table, p: int, e: A.Expr, s: seq<Token>): Reply<A.Expr>
    requires p >= 0
  {
    if p < Prec(t, Head(s)) then ParseBinOpRHS(t, p + 1, e, s) else Good(e, s)
  }

  function FromRight(t: Table, prec: nat, lhs: A.Expr, c: char, w: Reply<A.Expr>): Reply<A.Expr> {
    var (rhs, rest) :- w;
    ParseBinOpRHS(t, prec, A.Binary(c, lhs, rhs), rest)
  }

  lemma OperatorStages(t: Table, prec: nat, lhs: A.Expr, s: seq<Token>)
    requires Prec(t, Head(s)) >= prec && ParseUnary(t, Next(s)).Good?
    ensures var u := ParseUnary(t, Next(s));
            ParseBinOpRHS(t, prec, lhs, s)
            == FromRight(t, prec, lhs, Head(s).c, RightOf(t, Prec(t, Head(s)), u.value, u.rest))
  {
    hide ParseUnary;
  }

  lemma RightRemains(t: Table, p: int, e: A.Expr, s: seq<Token>)
    requires p >= 0
    ensures Remains(RightOf(t, p, e, s).rest, s) == true && |RightOf(t, p, e, s).rest| <= |s|
  {
    hide Remains, ParseBinOpRHS;
    Same(s);
    RhsRemains(t, p + 1, e, s);
  }

  lemma FromRightRemains(t: Table, prec: nat, lhs: A.Expr, c: char, w: Reply<A.Expr>)
    ensures Remains(FromRight(t, prec, lhs, c, w).rest, w.rest) == true
  {
    hide Remains, ParseBinOpRHS;
    Same(w.rest);
    if w.Good? {
      RhsRemains(t, prec, A.Binary(c, lhs, w.value), w.rest);
    }
  }

  lemma {:induction false} RightLocal(t: Table, p: int, e: A.Expr, s: seq<Token>, s': seq<Token>, r': seq<Token>)
    requires p >= 0 && Swapped(s, RightOf(t, p, e, s).rest, s', r')
    ensures RightOf(t, p, e, s') == With(RightOf(t, p, e, s), r')
    decreases |s|, 2
  {
    hide Remains, ParseBinOpRHS, Swapped;
    SwappedHead(s, RightOf(t, p, e, s).rest, s', r');
    if p < Prec(t, Head(s)) {
      RhsLocal(t, p + 1, e, s, s', r');
    } else {
      NothingUsed(s, s', r');
    }
  }

  lemma {:induction false} FromRightLocal(t: Table, prec: nat, lhs: A.Expr, c: char, w: Reply<A.Expr>, n': seq<Token>,
                                          r': seq<Token>)
    requires Swapped(w.rest, FromRight(t, prec, lhs, c, w).rest, n', r')
    ensures FromRight(t, prec, lhs, c, With(w, n')) == With(FromRight(t, prec, lhs, c, w), r')
    decreases |w.rest|, 2
  {
    hide Remains, ParseBinOpRHS, Swapped;
    if w.Good? {
      RhsLocal(t, prec, A.Binary(c, lhs, w.value), w.rest, n', r');
    } else {
      NothingUsed(w.rest, n', r');
    }
  }

  lemma {:induction false} OperatorLocal(t: Table, prec: nat, lhs: A.Expr, s: seq<Token>, s': seq<Token>,
                                         r': seq<Token>)
    requires Swapped(s, ParseBinOpRHS(t, prec, lhs, s).rest, s', r') && Prec(t, Head(s)) >= prec
    requires ParseUnary(t, Next(s)).Good?
    ensures ParseBinOpRHS(t, prec, lhs, s') == With(ParseBinOpRHS(t, prec, lhs, s), r')
    decreases |s|, 0
  {
    hide ParseUnary, ParseBinOpRHS, RightOf, FromRight, Remains, Mid, Swapped;
    var r := ParseBinOpRHS(t, prec, lhs, s).rest;
    var (c, p) := (Head(s).c, Prec(t, Head(s)));
    var u := ParseUnary(t, Next(s));
    var w := RightOf(t, p, u.value, u.rest);
    OperatorStages(t, prec, lhs, s);
    UnaryRemains(t, Next(s));
    RightRemains(t, p, u.value, u.rest);
    FromRightRemains(t, prec, lhs, c, w);
    Trans(r, w.rest, u.rest);
    Trans(r, u.rest, Next(s));
    SwappedHead(s, r, s', r');
    var u' := Mid(Next(s), u.rest, Next(s'));
    SwappedMid(Next(s), u.rest, r, Next(s'), r');
    UnaryLocal(t, Next(s), Next(s'), u');
    var w' := Mid(u.rest, w.rest, u');
    SwappedMid(u.rest, w.rest, r, u', r');
    RightLocal(t, p, u.value, u.rest, u', w');
    FromRightLocal(t, prec, lhs, c, w, w', r');
    OperatorStages(t, prec, lhs, s');
  }

  lemma {:induction false} PrimaryLocal(t: Table, s: seq<Token>, s': seq<Token>, r': seq<Token>)
    requires Swapped(s, ParsePrimary(t, s).rest, s', r')
    ensures ParsePrimary(t, s') == With(ParsePrimary(t, s), r')
    decreases |s|, 3
  {
    hide ParseIdentifier, ParseIf, ParseFor, ParseVar, ParseParen, Remains, Swapped;
    var r := ParsePrimary(t, s).rest;
    SwappedHead(s, r, s', r');
    match Head(s)
    case Number(_) =>
      Same(Next(s));
      NothingUsed(Next(s), Next(s'), r');
    case Identifier(name) =>
      IdentifierRemains(t, name, Next(s));
      IdentifierLocal(t, name, Next(s), Next(s'), r');
    case If =>
      IfRemains(t, Next(s));
      IfLocal(t, Next(s), Next(s'), r');
    case For =>
      ForRemains(t, Next(s));
      ForLocal(t, Next(s), Next(s'), r');
    case Var =>
      VarRemains(t, Next(s));
      VarLocal(t, Next(s), Next(s'), r');
    case Char(c) =>
      if c == '(' {
        ParenRemains(t, Next(s));
        ParenLocal(t, Next(s), Next(s'), r');
      } else {
        NothingUsed(s, s', r');
      }
    case _ => NothingUsed(s, s', r');
  }

  lemma {:induction false} ParenLocal(t: Table, s: seq<Token>, s': seq<Token>, r': seq<Token>)
    requires Swapped(s, ParseParen(t, s).rest, s', r')
    ensures ParseParen(t, s') == With(ParseParen(t, s), r')
    decreases |s|, 7
  {
    hide ParseExpression, Remains, Swapped;
    var u := ParseExpression(t, s);
    Same(u.rest);
    Same(Next(u.rest));
    var n' := Through(t, s, ParseParen(t, s).rest, s', r');
    if u.Good? && Head(u.rest) == CLOSE {
      NothingUsed(Next(u.rest), Next(n'), r');
    } else {
      NothingUsed(u.rest, n', r');
    }
  }

  lemma {:induction false} IdentifierLocal(t: Table, name: string, s: seq<Token>, s': seq<Token>, r': seq<Token>)
    requires Swapped(s, ParseIdentifier(t, name, s).rest, s', r')
    ensures ParseIdentifier(t, name, s') == With(ParseIdentifier(t, name, s), r')
    decreases |s|, 0
  {
    hide ParseArgs, Remains, Swapped;
    var r := ParseIdentifier(t, name, s).rest;
    SwappedHead(s, r, s', r');
    if Head(s) != OPEN {
      NothingUsed(s, s', r');
    } else {
      Same(Next(s));
      Same(Next(Next(s)));
      if Head(Next(s)) == CLOSE {
        SwappedHead(Next(s), r, Next(s'), r');
        NothingUsed(Next(Next(s)), Next(Next(s')), r');
      } else {
        ArgsRemain(t, Next(s));
        SwappedHead(Next(s), r, Next(s'), r');
        ArgsLocal(t, Next(s), Next(s'), r');
      }
    }
  }

  lemma {:induction false} ArgsLocal(t: Table, s: seq<Token>, s': seq<Token>, r': seq<Token>)
    requires Swapped(s, ParseArgs(t, s).rest, s', r')
    ensures ParseArgs(t, s') == With(ParseArgs(t, s), r')
    decreases |s|, 7
  {
    hide ParseExpression, Remains, Swapped;
    var u := ParseExpression(t, s);
    var r := ParseArgs(t, s).rest;
    Same(u.rest);
    Same(Next(u.rest));
    if u.Good? && Head(u.rest) == COMMA {
      ArgsRemain(t, Next(u.rest));
      Trans(r, Next(u.rest), u.rest);
    }
    var n' := Through(t, s, r, s', r');
    if u.Good? && Head(u.rest) == CLOSE {
      NothingUsed(Next(u.rest), Next(n'), r');
    } else if u.Good? && Head(u.rest) == COMMA {
      ArgsLocal(t, Next(u.rest), Next(n'), r');
    } else {
      NothingUsed(u.rest, n', r');
    }
  }

  lemma {:induction false} IfLocal(t: Table, s: seq<Token>, s': seq<Token>, r': seq<Token>)
    requires Swapped(s, ParseIf(t, s).rest, s', r')
    ensures ParseIf(t, s') == With(ParseIf(t, s), r')
    decreases |s|, 7
  {
    hide ParseExpression, Remains, Swapped;
    var r := ParseIf(t, s).rest;
    var u := ParseExpression(t, s);
    Same(u.rest);
    if u.Good? && Head(u.rest) == Then {
      IfArms(t, u.rest);
      assert ParseIf(t, s) == Arms(t, u.value, u.rest);
      var n' := Through(t, s, r, s', r');
      ArmsLocal(t, u.value, u.rest, n', r');
    } else {
      var n' := Through(t, s, r, s', r');
      NothingUsed(u.rest, n', r');
    }
  }

  /** From `then` on. */
  function Arms(t: Table, c: A.Expr, s: seq<Token>): Reply<A.Expr> {
    var (x, rest) :- ParseExpression(t, Next(s));
    if Head(rest) != Else then Fail(ExpectedElse, rest)
    else
      var (y, rest') :- ParseExpression(t, Next(rest));
      Good(A.If(c, x, y), rest')
  }

  lemma {:induction false} IfArms(t: Table, s: seq<Token>)
    ensures forall c :: Remains(Arms(t, c, s).rest, Next(s)) && Remains(Arms(t, c, s).rest, s)
  {
    hide ParseExpression, Remains;
    Same(s);
    ExpressionRemains(t, Next(s));
    var v := ParseExpression(t, Next(s));
    After(v.rest, s, s);
    if v.Good? && Head(v.rest) == Else {
      ExpressionRemains(t, Next(v.rest));
      After(ParseExpression(t, Next(v.rest)).rest, v.rest, Next(s));
      After(ParseExpression(t, Next(v.rest)).rest, v.rest, s);
    }
  }

  lemma {:induction false} ArmsLocal(t: Table, c: A.Expr, s: seq<Token>, s': seq<Token>, r': seq<Token>)
    requires Swapped(s, Arms(t, c, s).rest, s', r') && Head(s) == Then
    ensures Arms(t, c, s') == With(Arms(t, c, s), r')
    decreases |s|, 0
  {
    hide ParseExpression, Remains, Swapped;
    var r := Arms(t, c, s).rest;
    IfArms(t, s);
    SwappedHead(s, r, s', r');
    var v := ParseExpression(t, Next(s));
    Same(v.rest);
    if v.Good? && Head(v.rest) == Else {
      ExpressionRemains(t, Next(v.rest));
      Same(Next(v.rest));
      After(r, v.rest, v.rest);
      var n' := Through(t, Next(s), r, Next(s'), r');
      ExpressionLocal(t, Next(v.rest), Next(n'), r');
    } else {
      var n' := Through(t, Next(s), r, Next(s'), r');
      NothingUsed(v.rest, n', r');
    }
  }

  /** From the comma behind the first value of a `for` on, and from the end of its condition on. */
  function FromComma(t: Table, name: string, start: A.Expr, s: seq<Token>): Reply<A.Expr> {
    var (end, rest) :- ParseExpression(t, Next(s));
    FromEnd(t, name, start, end, rest)
  }

  function FromEnd(t: Table, name: string, start: A.Expr, end: A.Expr, s: seq<Token>): Reply<A.Expr> {
    FromStep(t, name, start, end, ParseStep(t, s))
  }

  lemma {:induction false} StepLocal(t: Table, s: seq<Token>, s': seq<Token>, r': seq<Token>)
    requires Swapped(s, ParseStep(t, s).rest, s', r')
    ensures ParseStep(t, s') == With(ParseStep(t, s), r')
    decreases |s|, 7
  {
    hide ParseExpression, Remains, Swapped;
    SwappedHead(s, ParseStep(t, s).rest, s', r');
    if Head(s) == COMMA {
      ExpressionRemains(t, Next(s));
      ExpressionLocal(t, Next(s), Next(s'), r');
    } else {
      NothingUsed(s, s', r');
    }
  }

  lemma FromEndRemains(t: Table, name: string, start: A.Expr, end: A.Expr, s: seq<Token>)
    ensures Remains(FromEnd(t, name, start, end, s).rest, s) == true
    ensures Remains(FromEnd(t, name, start, end, s).rest, ParseStep(t, s).rest) == true
  {
    hide ParseExpression, Remains, ParseStep;
    StepRemains(t, s);
    var u := ParseStep(t, s);
    Same(u.rest);
    if u.Good? && Head(u.rest) == In {
      ExpressionRemains(t, Next(u.rest));
      After(ParseExpression(t, Next(u.rest)).rest, u.rest, u.rest);
      After(ParseExpression(t, Next(u.rest)).rest, u.rest, s);
    }
  }

  /** From the step on. */
  function FromStep(t: Table, name: string, start: A.Expr, end: A.Expr, u: Reply<Option<A.Expr>>): Reply<A.Expr> {
    var (step, rest) :- u;
    if Head(rest) != In then Fail(ExpectedForIn, rest)
    else
      var (body, rest') :- ParseExpression(t, Next(rest));
      Good(A.For(name, start, end, step, body), rest')
  }

  lemma {:induction false} FromStepLocal(t: Table, name: string, start: A.Expr, end: A.Expr, u: Reply<Option<A.Expr>>,
                                         n': seq<Token>, r': seq<Token>)
    requires Swapped(u.rest, FromStep(t, name, start, end, u).rest, n', r')
    ensures FromStep(t, name, start, end, With(u, n')) == With(FromStep(t, name, start, end, u), r')
    decreases |u.rest|, 7
  {
    hide ParseExpression, Remains, Swapped;
    SwappedHead(u.rest, FromStep(t, name, start, end, u).rest, n', r');
    if u.Good? && Head(u.rest) == In {
      ExpressionRemains(t, Next(u.rest));
      ExpressionLocal(t, Next(u.rest), Next(n'), r');
    } else {
      NothingUsed(u.rest, n', r');
    }
  }

  lemma {:induction false} FromEndLocal(t: Table, name: string, start: A.Expr, end: A.Expr, s: seq<Token>,
                                        s': seq<Token>, r': seq<Token>)
    requires Swapped(s, FromEnd(t, name, start, end, s).rest, s', r')
    ensures FromEnd(t, name, start, end, s') == With(FromEnd(t, name, start, end, s), r')
    decreases |s|, 8
  {
    hide FromStep, Remains, Swapped, ParseStep, Mid;
    FromEndRemains(t, name, start, end, s);
    var r := FromEnd(t, name, start, end, s).rest;
    StepRemains(t, s);
    var u := ParseStep(t, s);
    var n' := Mid(s, u.rest, s');
    SwappedMid(s, u.rest, r, s', r');
    StepLocal(t, s, s', n');
    FromStepLocal(t, name, start, end, u, n', r');
  }

  lemma FromCommaRemains(t: Table, name: string, start: A.Expr, s: seq<Token>)
    ensures Remains(FromComma(t, name, start, s).rest, Next(s)) == true
    ensures Remains(FromComma(t, name, start, s).rest, s) == true
    ensures Remains(FromComma(t, name, start, s).rest, ParseExpression(t, Next(s)).rest) == true
  {
    hide ParseExpression, Remains, FromEnd;
    ExpressionRemains(t, Next(s));
    var u := ParseExpression(t, Next(s));
    Same(u.rest);
    if u.Good? {
      FromEndRemains(t, name, start, u.value, u.rest);
      Trans(FromComma(t, name, start, s).rest, u.rest, Next(s));
    }
    Same(s);
    After(FromComma(t, name, start, s).rest, s, s);
  }

  lemma {:induction false} FromCommaLocal(t: Table, name: string, start: A.Expr, s: seq<Token>, s': seq<Token>,
                                          r': seq<Token>)
    requires Swapped(s, FromComma(t, name, start, s).rest, s', r') && Head(s) == COMMA
    ensures FromComma(t, name, start, s') == With(FromComma(t, name, start, s), r')
    decreases |s|, 0
  {
    hide ParseExpression, Remains, Swapped, FromEnd;
    var r := FromComma(t, name, start, s).rest;
    FromCommaRemains(t, name, start, s);
    SwappedHead(s, r, s', r');
    var u := ParseExpression(t, Next(s));
    var n' := Through(t, Next(s), r, Next(s'), r');
    if u.Good? {
      FromEndLocal(t, name, start, u.value, u.rest, n', r');
    } else {
      NothingUsed(u.rest, n', r');
    }
  }

  /** A `for` in the terms of these. */
  lemma ForStages(t: Table, s: seq<Token>)
    requires Head(s).Identifier? && Head(Next(s)) == EQUALS
    ensures var u := ParseExpression(t, Next(Next(s)));
            ParseFor(t, s) == if u.Fail? then Fail(u.error, u.rest)
                              else if Head(u.rest) != COMMA then Fail(ExpectedForComma, u.rest)
                              else FromComma(t, Head(s).name, u.value, u.rest)
  {
    hide ParseExpression, ParseStep;
  }

  lemma {:induction false} ForLocal(t: Table, s: seq<Token>, s': seq<Token>, r': seq<Token>)
    requires Swapped(s, ParseFor(t, s).rest, s', r')
    ensures ParseFor(t, s') == With(ParseFor(t, s), r')
    decreases |s|, 7
  {
    hide ParseExpression, Remains, Swapped, FromComma;
    var r := ParseFor(t, s).rest;
    SwappedHead(s, r, s', r');
    if !Head(s).Identifier? {
      assert r == s;
      NothingUsed(s, s', r');
    } else {
      Same(Next(s));
      ForRemainsSecond(t, s);
      SwappedHead(Next(s), r, Next(s'), r');
      if Head(Next(s)) != EQUALS {
        NothingUsed(Next(s), Next(s'), r');
      } else {
        ForBodyLocal(t, s, s', r');
      }
    }
  }

  lemma ForRemainsSecond(t: Table, s: seq<Token>)
    requires Head(s).Identifier?
    ensures Remains(ParseFor(t, s).rest, Next(s)) == true
    ensures Head(Next(s)) == EQUALS ==> Remains(ParseFor(t, s).rest, Next(Next(s))) == true
    ensures Head(Next(s)) == EQUALS ==> Remains(ParseFor(t, s).rest, ParseExpression(t, Next(Next(s))).rest) == true
  {
    hide ParseExpression, Remains, FromComma, ParseFor;
    Same(Next(s));
    if Head(Next(s)) == EQUALS {
      ForStages(t, s);
      var u := ParseExpression(t, Next(Next(s)));
      ExpressionRemains(t, Next(Next(s)));
      Same(u.rest);
      if u.Good? && Head(u.rest) == COMMA {
        FromCommaRemains(t, Head(s).name, u.value, u.rest);
        Trans(ParseFor(t, s).rest, u.rest, Next(Next(s)));
      }
      After(ParseFor(t, s).rest, Next(s), Next(s));
    } else {
      NoEquals(t, s);
    }
  }

  lemma NoEquals(t: Table, s: seq<Token>)
    requires Head(s).Identifier? && Head(Next(s)) != EQUALS
    ensures ParseFor(t, s) == Fail(ExpectedForEquals, Next(s))
  {
  }

  lemma {:induction false} ForBodyLocal(t: Table, s: seq<Token>, s': seq<Token>, r': seq<Token>)
    requires Swapped(s, ParseFor(t, s).rest, s', r') && Head(s).Identifier? && Head(Next(s)) == EQUALS
    ensures ParseFor(t, s') == With(ParseFor(t, s), r')
    decreases |s|, 0
  {
    hide ParseExpression, Remains, Swapped, FromComma, ParseFor;
    var r := ParseFor(t, s).rest;
    ForRemainsSecond(t, s);
    SwappedHead(s, r, s', r');
    SwappedHead(Next(s), r, Next(s'), r');
    ForStages(t, s);
    ForStages(t, s');
    var u := ParseExpression(t, Next(Next(s)));
    var n' := Through(t, Next(Next(s)), r, Next(Next(s')), r');
    if u.Good? && Head(u.rest) == COMMA {
      FromCommaLocal(t, Head(s).name, u.value, u.rest, n', r');
    } else {
      NothingUsed(u.rest, n', r');
    }
  }

  /** A `var` expression once its list has been read. */
  function FromIn(t: Table, u: Reply<seq<A.Binding>>): Reply<A.Expr> {
    var (bs, rest) :- u;
    if Head(rest) != In then Fail(ExpectedVarIn, rest)
    else
      var (body, rest') :- ParseExpression(t, Next(rest));
      Good(A.VarIn(bs, body), rest')
  }

  lemma VarStages(t: Table, s: seq<Token>)
    requires Head(s).Identifier?
    ensures ParseVar(t, s) == FromIn(t, ParseBindings(t, s))
  {
    hide ParseExpression, ParseBindings;
  }

  lemma FromInRemains(t: Table, u: Reply<seq<A.Binding>>)
    ensures Remains(FromIn(t, u).rest, u.rest)
  {
    hide ParseExpression, Remains;
    Same(u.rest);
    if u.Good? && Head(u.rest) == In {
      ExpressionRemains(t, Next(u.rest));
      After(FromIn(t, u).rest, u.rest, u.rest);
    }
  }

  lemma {:induction false} FromInLocal(t: Table, u: Reply<seq<A.Binding>>, n': seq<Token>, r': seq<Token>)
    requires Swapped(u.rest, FromIn(t, u).rest, n', r')
    ensures FromIn(t, With(u, n')) == With(FromIn(t, u), r')
    decreases |u.rest|, 6
  {
    hide ParseExpression, Remains, Swapped;
    SwappedHead(u.rest, FromIn(t, u).rest, n', r');
    if u.Good? && Head(u.rest) == In {
      ExpressionRemains(t, Next(u.rest));
      ExpressionLocal(t, Next(u.rest), Next(n'), r');
    } else {
      NothingUsed(u.rest, n', r');
    }
  }

  lemma {:induction false} VarLocal(t: Table, s: seq<Token>, s': seq<Token>, r': seq<Token>)
    requires Swapped(s, ParseVar(t, s).rest, s', r')
    ensures ParseVar(t, s') == With(ParseVar(t, s), r')
    decreases |s|, 8
  {
    hide ParseExpression, ParseBindings, Remains, Swapped, Mid, FromIn;
    var r := ParseVar(t, s).rest;
    SwappedHead(s, r, s', r');
    if !Head(s).Identifier? {
      NothingUsed(s, s', r');
    } else {
      VarStages(t, s);
      VarStages(t, s');
      hide ParseVar;
      BindingsRemain(t, s);
      var u := ParseBindings(t, s);
      FromInRemains(t, u);
      var n' := Mid(s, u.rest, s');
      SwappedMid(s, u.rest, r, s', r');
      BindingsLocal(t, s, s', n');
      FromInLocal(t, u, n', r');
    }
  }

  lemma {:induction false} InitLocal(t: Table, s: seq<Token>, s': seq<Token>, r': seq<Token>)
    requires Swapped(s, ParseInit(t, s).rest, s', r')
    ensures ParseInit(t, s') == With(ParseInit(t, s), r')
    decreases |s|, 7
  {
    hide ParseExpression, Remains, Swapped;
    SwappedHead(s, ParseInit(t, s).rest, s', r');
    if Head(s) == EQUALS {
      ExpressionRemains(t, Next(s));
      ExpressionLocal(t, Next(s), Next(s'), r');
    } else {
      NothingUsed(s, s', r');
    }
  }

  /** A `var` list once the first initial value has been read. */
  function FromInit(t: Table, name: string, u: Reply<Option<A.Expr>>): Reply<seq<A.Binding>> {
    var (init, rest) :- u;
    if Head(rest) != COMMA then Good([A.Binding(name, init)], rest)
    else if !Head(Next(rest)).Identifier? then Fail(ExpectedVarList, Next(rest))
    else
      var (more, rest') :- ParseBindings(t, Next(rest));
      Good([A.Binding(name, init)] + more, rest')
  }

  lemma BindingsStages(t: Table, s: seq<Token>)
    requires Head(s).Identifier?
    ensures ParseBindings(t, s) == FromInit(t, Head(s).name, ParseInit(t, Next(s)))
  {
    hide ParseInit;
  }

  lemma FromInitRemains(t: Table, name: string, u: Reply<Option<A.Expr>>)
    ensures Remains(FromInit(t, name, u).rest, u.rest) == true
    ensures u.Good? && Head(u.rest) == COMMA ==> Remains(FromInit(t, name, u).rest, Next(u.rest)) == true
  {
    hide ParseBindings, Remains;
    Same(u.rest);
    Same(Next(u.rest));
    if u.Good? && Head(u.rest) == COMMA && Head(Next(u.rest)).Identifier? {
      BindingsRemain(t, Next(u.rest));
      Trans(FromInit(t, name, u).rest, Next(u.rest), u.rest);
    }
  }

  lemma {:induction false} FromInitLocal(t: Table, name: string, u: Reply<Option<A.Expr>>, n': seq<Token>,
                                         r': seq<Token>)
    requires Swapped(u.rest, FromInit(t, name, u).rest, n', r')
    ensures FromInit(t, name, With(u, n')) == With(FromInit(t, name, u), r')
    decreases |u.rest|, 8
  {
    hide ParseBindings, Remains, Swapped;
    var r := FromInit(t, name, u).rest;
    SwappedHead(u.rest, r, n', r');
    FromInitRemains(t, name, u);
    if u.Good? && Head(u.rest) == COMMA {
      SwappedHead(Next(u.rest), r, Next(n'), r');
      if Head(Next(u.rest)).Identifier? {
        BindingsLocal(t, Next(u.rest), Next(n'), r');
      } else {
        NothingUsed(Next(u.rest), Next(n'), r');
      }
    } else {
      NothingUsed(u.rest, n', r');
    }
  }

  lemma {:induction false} BindingsLocal(t: Table, s: seq<Token>, s': seq<Token>, r': seq<Token>)
    requires Head(s).Identifier? && Swapped(s, ParseBindings(t, s).rest, s', r')
    ensures Head(s') == Head(s) && ParseBindings(t, s') == With(ParseBindings(t, s), r')
    decreases |s|, 7
  {
    hide ParseInit, ParseBindings, FromInit, Remains, Swapped, Mid;
    var r := ParseBindings(t, s).rest;
    SwappedHead(s, r, s', r');
    BindingsStages(t, s);
    BindingsStages(t, s');
    var u := ParseInit(t, Next(s));
    FromInitRemains(t, Head(s).name, u);
    InitRemains(t, Next(s));
    Trans(r, u.rest, Next(s));
    var n' := Mid(Next(s), u.rest, Next(s'));
    SwappedMid(Next(s), u.rest, r, Next(s'), r');
    InitLocal(t, Next(s), Next(s'), n');
    FromInitLocal(t, Head(s).name, u, n', r');
  }

  // ----- Prototypes -----

  lemma NameLocal(v: Values, s: seq<Token>, s': seq<Token>, r': seq<Token>)
    requires Swapped(s, ParseName(v, s).rest, s', r')
    ensures ParseName(v, s') == With(ParseName(v, s), r')
  {
    hide Remains, Swapped;
    var r := ParseName(v, s).rest;
    var s1 := Next(s);
    Same(s1);
    Same(Next(s1));
    if Head(s).Binary? {
      BinaryLocal(v, s, s', r');
    } else {
      SwappedHead(s, r, s', r');
      match Head(s)
      case Identifier(_) => NothingUsed(s1, Next(s'), r');
      case Unary =>
        After(Next(s1), s1, s1);
        SwappedHead(s1, r, Next(s'), r');
        if r == s1 {
          NothingUsed(s1, Next(s'), r');
        } else {
          NothingUsed(Next(s1), Next(Next(s')), r');
        }
      case _ => NothingUsed(s, s', r');
    }
  }

  /** What follows `binary c`. */
  function FromNumber(v: Values, c: char, s: seq<Token>): Reply<Name> {
    if !Head(s).Number? then Good(Name(A.BinaryName(c), Some(2), DEFAULT_PRECEDENCE), s)
    else
      var n := v(Head(s).text);
      if n < 1.0 || n > 100.0 then Fail(InvalidPrecedence, s)
      else Good(Name(A.BinaryName(c), Some(2), n.Floor), Next(s))
  }

  lemma BinaryStages(v: Values, s: seq<Token>)
    requires Head(s).Binary?
    ensures var k := Head(Next(s));
            ParseName(v, s) == if !(k.Char? && Ascii(k.c)) then Fail(ExpectedBinaryOperator, Next(s))
                               else FromNumber(v, k.c, Next(Next(s)))
  {
  }

  lemma FromNumberLocal(v: Values, c: char, s: seq<Token>, s': seq<Token>, r': seq<Token>)
    requires Swapped(s, FromNumber(v, c, s).rest, s', r')
    ensures FromNumber(v, c, s') == With(FromNumber(v, c, s), r')
  {
    hide Remains, Swapped;
    var r := FromNumber(v, c, s).rest;
    Same(Next(s));
    SwappedHead(s, r, s', r');
    if r == s {
      NothingUsed(s, s', r');
    } else {
      NothingUsed(Next(s), Next(s'), r');
    }
  }

  lemma BinaryLocal(v: Values, s: seq<Token>, s': seq<Token>, r': seq<Token>)
    requires Head(s).Binary? && Swapped(s, ParseName(v, s).rest, s', r')
    ensures ParseName(v, s') == With(ParseName(v, s), r')
  {
    hide Remains, Swapped, FromNumber;
    var r := ParseName(v, s).rest;
    var s1, s2 := Next(s), Next(Next(s));
    BinaryStages(v, s);
    BinaryRests(v, s);
    SwappedHead(s, r, s', r');
    BinaryStages(v, s');
    hide ParseName;
    SwappedHead(s1, r, Next(s'), r');
    if Head(s1).Char? && Ascii(Head(s1).c) {
      FromNumberLocal(v, Head(s1).c, s2, Next(Next(s')), r');
    } else {
      NothingUsed(s1, Next(s'), r');
    }
  }

  lemma BinaryRests(v: Values, s: seq<Token>)
    requires Head(s).Binary?
    ensures var r, k := ParseName(v, s).rest, Head(Next(s));
            Remains(r, Next(s)) == true && (k.Char? && Ascii(k.c) ==> Remains(r, Next(Next(s))) == true)
  {
    hide Remains;
    var s2 := Next(Next(s));
    Same(Next(s));
    Same(s2);
    After(Next(s2), s2, Next(s));
  }

  lemma {:induction false} ParamsLocal(s: seq<Token>, s': seq<Token>, r': seq<Token>)
    requires Swapped(s, ParseParams(s).rest, s', r')
    ensures ParseParams(s') == With(ParseParams(s), r')
    decreases |s|
  {
    hide Remains, Swapped;
    var r := ParseParams(s).rest;
    var s1 := Next(s);
    Same(s1);
    Same(Next(s1));
    SwappedHead(s, r, s', r');
    if Head(s).Identifier? {
      After(Next(s1), s1, s1);
      if Head(s1) == COMMA {
        ParamsRemain(Next(s1));
        Trans(r, Next(s1), s1);
      }
      SwappedHead(s1, r, Next(s'), r');
      if Head(s1) == CLOSE {
        NothingUsed(Next(s1), Next(Next(s')), r');
      } else if Head(s1) == COMMA {
        ParamsLocal(Next(s1), Next(Next(s')), r');
      } else {
        NothingUsed(s1, Next(s'), r');
      }
    } else if Head(s) == CLOSE {
      NothingUsed(s1, Next(s'), r');
    } else {
      NothingUsed(s, s', r');
    }
  }

  /** A prototype once its name has been read. */
  function FromName(u: Reply<Name>): Reply<A.Prototype> {
    var (n, rest) :- u;
    if Head(rest) != OPEN then Fail(ExpectedOpen, rest)
    else
      var (params, rest') :- ParseParams(Next(rest));
      if n.arity.Some? && |params| != n.arity.value then Fail(WrongOperandCount, rest')
      else Good(A.Prototype(n.name, params, n.arity.Some?, n.precedence), rest')
  }

  lemma NameStages(v: Values, s: seq<Token>)
    ensures ParsePrototype(v, s) == FromName(ParseName(v, s))
  {
    hide ParseName, ParseParams;
  }

  lemma FromNameRemains(u: Reply<Name>)
    ensures Remains(FromName(u).rest, u.rest) == true
    ensures u.Good? && Head(u.rest) == OPEN ==> Remains(FromName(u).rest, Next(u.rest)) == true
  {
    hide ParseParams, Remains;
    Same(u.rest);
    if u.Good? && Head(u.rest) == OPEN {
      ParamsRemain(Next(u.rest));
      After(FromName(u).rest, u.rest, u.rest);
    }
  }

  lemma FromNameLocal(u: Reply<Name>, n': seq<Token>, r': seq<Token>)
    requires Swapped(u.rest, FromName(u).rest, n', r')
    ensures FromName(With(u, n')) == With(FromName(u), r')
  {
    hide ParseParams, Remains, Swapped;
    FromNameRemains(u);
    SwappedHead(u.rest, FromName(u).rest, n', r');
    if u.Good? && Head(u.rest) == OPEN {
      ParamsLocal(Next(u.rest), Next(n'), r');
    } else {
      NothingUsed(u.rest, n', r');
    }
  }

  lemma PrototypeLocal(v: Values, s: seq<Token>, s': seq<Token>, r': seq<Token>)
    requires Swapped(s, ParsePrototype(v, s).rest, s', r')
    ensures ParsePrototype(v, s') == With(ParsePrototype(v, s), r')
  {
    hide ParseName, FromName, ParsePrototype, Remains, Swapped, Mid;
    var u := ParseName(v, s);
    NameStages(v, s);
    NameStages(v, s');
    NameRemains(v, s);
    FromNameRemains(u);
    var n' := Mid(s, u.rest, s');
    SwappedMid(s, u.rest, FromName(u).rest, s', r');
    NameLocal(v, s, s', n');
    FromNameLocal(u, n', r');
  }

  lemma DefinitionLocal(v: Values, t: Table, s: seq<Token>, s': seq<Token>, r': seq<Token>)
    requires Head(s) == Def && Swapped(s, ParseDefinition(v, t, s).rest, s', r')
    ensures Head(s') == Def && ParseDefinition(v, t, s') == With(ParseDefinition(v, t, s), r')
  {
    hide ParsePrototype, ParseExpression, Remains, Swapped, Mid;
    var r := ParseDefinition(v, t, s).rest;
    var u := ParsePrototype(v, Next(s));
    PrototypeRemains(v, Next(s));
    Same(u.rest);
    if u.Good? {
      ExpressionRemains(t, u.rest);
    }
    Trans(r, u.rest, Next(s));
    SwappedHead(s, r, s', r');
    var n' := Mid(Next(s), u.rest, Next(s'));
    SwappedMid(Next(s), u.rest, r, Next(s'), r');
    PrototypeLocal(v, Next(s), Next(s'), n');
    if u.Good? {
      ExpressionLocal(t, u.rest, n', r');
    } else {
      NothingUsed(u.rest, n', r');
    }
  }

  // ----- What has been read begins an expression -----

  const ZERO := TNumber("0")

  /** A token that is no operator ends every tree, `(` apart. */
  lemma {:induction false} EdgeFree(t: Table, x: Tree, k: Token)
    requires Prec(t, k) < 0 && k != OPEN
    ensures Edge(t, x, k) && Closed(t, x, k)
  {
    match x
    case TNumber(_) =>
    case TVariable(_) =>
    case TParen(_) =>
    case TVar(_, body) => EdgeFree(t, body, k);
    case TUnary(_, y) => EdgeFree(t, y, k);
    case TBinary(_, _, r) => EdgeFree(t, r, k);
    case TIf(_, _, z) => EdgeFree(t, z, k);
    case TFor(_, _, _, _, body) => EdgeFree(t, body, k);
    case TCall(_, _) =>
  }

  lemma ZeroOk(t: Table)
    ensures WF(t, ZERO)
  {
  }

  lemma UsedVia(s: seq<Token>, m: seq<Token>, r: seq<Token>)
    requires Remains(m, s) && Remains(r, m)
    ensures Remains(r, s) && |r| <= |m| <= |s| && Used(s, r) == Used(s, m) + Used(m, r)
  {
  }

  lemma UsedNext(s: seq<Token>, r: seq<Token>)
    requires Remains(r, Next(s)) && s != []
    ensures Remains(r, s) && |r| <= |Next(s)| <= |s| && Used(s, r) == [Head(s)] + Used(Next(s), r)
  {
  }

  lemma UsedNone(s: seq<Token>)
    ensures Remains(s, s) && Used(s, s) == []
  {
  }

  /** What a tree stands for has been used up. */
  lemma UsedYield(t: Table, x: Tree, s: seq<Token>, e: A.Expr, rest: seq<Token>)
    requires Reads(t, x, s, e, rest)
    ensures Remains(rest, s) && |rest| <= |s| && Used(s, rest) == Yield(x)
  {
    hide WF, Strip, Yield, Edge;
  }

  lemma PrefixIn(a: seq<Token>, u: seq<Token>, y: seq<Token>, b: seq<Token>)
    requires u <= y
    ensures a + u <= a + y + b
  {
  }

  /** What has been used up in front of `m`, the token there, and what begins as `y` behind it. */
  lemma NextPiece(s: seq<Token>, m: seq<Token>, n: seq<Token>, a: seq<Token>, y: seq<Token>, b: seq<Token>)
    requires Remains(m, s) && m != [] && Used(s, m) == a && Remains(n, Next(m)) && Used(Next(m), n) <= y
    ensures Remains(n, s) && |n| <= |s| && Used(s, n) <= a + [Head(m)] + y + b
    ensures Used(Next(m), n) == y ==> Used(s, n) == a + [Head(m)] + y
  {
    UsedNext(m, n);
    UsedVia(s, m, n);
    PrefixIn(a + [Head(m)], Used(Next(m), n), y, b);
    assert Used(s, n) == a + [Head(m)] + Used(Next(m), n);
  }

  /** The tokens of `s` in front of `r` are among the first of the tree's. */
  ghost predicate Begins(t: Table, x: Tree, s: seq<Token>, r: seq<Token>) {
    WF(t, x) && Remains(r, s) && Used(s, r) <= Yield(x)
  }

  /** A tree that begins with the tokens used up; if nothing went wrong it has no others. */
  lemma {:induction false} ExpressionStarts(t: Table, s: seq<Token>) returns (x: Tree)
    requires TableOk(t)
    ensures var r := ParseExpression(t, s);
            Begins(t, x, s, r.rest) && |r.rest| <= |s| && (r.Good? ==> Used(s, r.rest) == Yield(x))
    decreases |s|, 8
  {
    hide ParseExpression, WF, Yield, Strip, Edge, Remains, Closed, Used;
    var r := ParseExpression(t, s);
    if r.Good? {
      x := ExpressionSound(t, s);
      UsedYield(t, x, s, r.value, r.rest);
    } else {
      x := ExpressionBegins(t, s);
    }
  }

  lemma {:induction false} ExpressionBegins(t: Table, s: seq<Token>) returns (x: Tree)
    requires TableOk(t) && ParseExpression(t, s).Fail?
    ensures Begins(t, x, s, ParseExpression(t, s).rest)
    decreases |s|, 7
  {
    hide ParseUnary, ParseBinOpRHS, WF, Edge, Yield, Strip, Begins;
    var u := ParseUnary(t, s);
    if u.Fail? {
      x := UnaryBegins(t, s);
    } else {
      var y := UnarySound(t, s);
      x := RhsBegins(t, 0, y, s, u.rest);
    }
  }

  lemma {:induction false} UnaryBegins(t: Table, s: seq<Token>) returns (x: Tree)
    requires TableOk(t) && ParseUnary(t, s).Fail?
    ensures Begins(t, x, s, ParseUnary(t, s).rest) && !x.TBinary?
    decreases |s|, 6
  {
    hide ParsePrimary, Remains, Used;
    var r := ParseUnary(t, s).rest;
    if UnaryToken(Head(s)) {
      var y := UnaryBegins(t, Next(s));
      UsedNext(s, r);
      hide ParseUnary;
      x := TUnary(Head(s).c, y);
      PrefixIn([Head(s)], Used(Next(s), r), Yield(y), []);
    } else {
      x := PrimaryBegins(t, s);
    }
  }

  lemma {:induction false} RhsBegins(t: Table, prec: nat, l: Tree, s0: seq<Token>, s: seq<Token>) returns (x: Tree)
    requires TableOk(t) && Reads(t, l, s0, Strip(l), s) && Tighter(t, l, prec) && Tighter(t, l, Prec(t, Head(s)))
    requires ParseBinOpRHS(t, prec, Strip(l), s).Fail?
    ensures Begins(t, x, s0, ParseBinOpRHS(t, prec, Strip(l), s).rest) && Tighter(t, x, prec)
    decreases |s|, 1
  {
    hide ParseUnary, WF, Edge, Yield, Begins;
    var k := Head(s);
    var p := Prec(t, k);
    var r := ParseBinOpRHS(t, prec, Strip(l), s).rest;
    var u := ParseUnary(t, Next(s));
    if u.Fail? {
      var y := UnaryBegins(t, Next(s));
      x := JoinBegins(t, l, s0, s, y, r);
    } else {
      var y := UnarySound(t, Next(s));
      if p < Prec(t, Head(u.rest)) && ParseBinOpRHS(t, p + 1, u.value, u.rest).Fail? {
        var z := RhsBegins(t, p + 1, y, Next(s), u.rest);
        x := JoinBegins(t, l, s0, s, z, r);
      } else {
        var z, rest := y, u.rest;
        if p < Prec(t, Head(u.rest)) {
          z := SpineSound(t, p + 1, y, Next(s), u.rest);
          rest := ParseBinOpRHS(t, p + 1, Strip(y), u.rest).rest;
        }
        JoinReads(t, l, s0, s, z, rest);
        x := RhsBegins(t, prec, TBinary(k.c, l, z), s0, rest);
      }
    }
  }

  /** An operand that begins as what has been read, behind a left operand and its operator. */
  lemma JoinBegins(t: Table, l: Tree, s0: seq<Token>, s: seq<Token>, z: Tree, r: seq<Token>) returns (x: Tree)
    requires Reads(t, l, s0, Strip(l), s) && Begins(t, z, Next(s), r)
    requires var p := Prec(t, Head(s)); p > 0 && Tighter(t, l, p) && Tighter(t, z, p + 1)
    ensures Head(s).Char? && x == TBinary(Head(s).c, l, z) && Begins(t, x, s0, r)
  {
    hide Used, Remains, Strip, WF, Edge, Yield, Tighter;
    x := TBinary(Head(s).c, l, z);
    JoinFormed(t, l, s0, s, z);
    UsedYield(t, l, s0, Strip(l), s);
    NextPiece(s0, s, r, Yield(l), Yield(z), []);
    BinaryYield(Head(s).c, l, z, []);
    Plain(Yield(l), [Head(s)], Yield(z), Yield(x));
  }

  lemma JoinFormed(t: Table, l: Tree, s0: seq<Token>, s: seq<Token>, z: Tree)
    requires Reads(t, l, s0, Strip(l), s) && WF(t, z)
    requires var p := Prec(t, Head(s)); p > 0 && Tighter(t, l, p) && Tighter(t, z, p + 1)
    ensures Head(s).Char? && s != [] && WF(t, TBinary(Head(s).c, l, z))
  {
    hide Strip, Yield;
  }

  lemma Plain(a: seq<Token>, b: seq<Token>, c: seq<Token>, y: seq<Token>)
    requires y + [] == a + (b + (c + []))
    ensures y == a + b + c + []
  {
    assert y == y + [];
  }

  lemma {:induction false} PrimaryBegins(t: Table, s: seq<Token>) returns (x: Tree)
    requires TableOk(t) && ParsePrimary(t, s).Fail?
    ensures Begins(t, x, s, ParsePrimary(t, s).rest) && !x.TBinary?
    decreases |s|, 5
  {
    hide ParseIdentifier, ParseIf, ParseFor, ParseVar, ParseParen, Remains, Used;
    match Head(s)
    case Identifier(name) => x := CallBegins(t, s);
    case If => x := IfBegins(t, s);
    case For => x := ForBegins(t, s);
    case Var => x := VarBegins(t, s);
    case Char(p) =>
      if p == '(' {
        x := ParenBegins(t, s);
      } else {
        x := ZERO;
        UsedNone(s);
      }
    case _ =>
      x := ZERO;
      UsedNone(s);
  }

  lemma {:induction false} ParenBegins(t: Table, s: seq<Token>) returns (x: Tree)
    requires TableOk(t) && Head(s) == OPEN && ParsePrimary(t, s).Fail?
    ensures Begins(t, x, s, ParsePrimary(t, s).rest) && !x.TBinary?
    decreases |s|, 4
  {
    hide ParseExpression, ParsePrimary, Remains, Strip, Edge, Used;
    PrimaryParen(t, s);
    var r := ParsePrimary(t, s).rest;
    var y := ExpressionStarts(t, Next(s));
    UsedNext(s, r);
    EdgeFree(t, y, CLOSE);
    x := TParen(y);
    PrefixIn([OPEN], Used(Next(s), r), Yield(y), [CLOSE]);
  }

  lemma {:induction false} IfBegins(t: Table, s: seq<Token>) returns (x: Tree)
    requires TableOk(t) && Head(s) == Token.If && ParsePrimary(t, s).Fail?
    ensures Begins(t, x, s, ParsePrimary(t, s).rest) && !x.TBinary?
    decreases |s|, 4
  {
    hide ParseExpression, ParseIf, Arms, WF, Remains, Used, Yield;
    assert ParsePrimary(t, s) == ParseIf(t, Next(s));
    hide ParsePrimary;
    var u := ParseExpression(t, Next(s));
    var y := ExpressionStarts(t, Next(s));
    UsedNone(s);
    IfStages(t, Next(s));
    if u.Good? && Head(u.rest) == Then {
      NextPiece(s, s, u.rest, [], Yield(y), []);
      assert Used(s, u.rest) == [Token.If] + Yield(y);
      x := ArmsBegin(t, y, u.value, s, u.rest);
    } else {
      ZeroOk(t);
      IfYields(t, y, ZERO, ZERO);
      NextPiece(s, s, u.rest, [], Yield(y), [Token.Then] + Yield(ZERO) + [Token.Else] + Yield(ZERO));
      x := TIf(y, ZERO, ZERO);
    }
  }

  lemma IfStages(t: Table, s: seq<Token>)
    ensures var u := ParseExpression(t, s);
            ParseIf(t, s) == if u.Fail? then Fail(u.error, u.rest)
                             else if Head(u.rest) != Then then Fail(ExpectedThen, u.rest)
                             else Arms(t, u.value, u.rest)
  {
    hide ParseExpression;
  }

  lemma {:induction false} ArmsBegin(t: Table, y: Tree, e: A.Expr, s0: seq<Token>, s: seq<Token>) returns (x: Tree)
    requires TableOk(t) && WF(t, y) && Remains(s, s0) && Head(s) == Then && Arms(t, e, s).Fail?
    requires |s| <= |s0| && Used(s0, s) == [Token.If] + Yield(y)
    ensures Begins(t, x, s0, Arms(t, e, s).rest) && x.TIf?
    decreases |s|, 0
  {
    hide ParseExpression, WF, Remains, Used, Yield;
    var u := ParseExpression(t, Next(s));
    var z := ExpressionStarts(t, Next(s));
    ZeroOk(t);
    var front := Used(s0, s);
    if u.Good? && Head(u.rest) == Else {
      var w := ExpressionStarts(t, Next(u.rest));
      NextPiece(s0, s, u.rest, front, Yield(z), []);
      NextPiece(s0, u.rest, Arms(t, e, s).rest, front + [Token.Then] + Yield(z), Yield(w), []);
      IfYields(t, y, z, w);
      x := TIf(y, z, w);
    } else {
      IfYields(t, y, z, ZERO);
      NextPiece(s0, s, u.rest, front, Yield(z), [Token.Else] + Yield(ZERO));
      x := TIf(y, z, ZERO);
    }
  }

  lemma IfYields(t: Table, y: Tree, z: Tree, w: Tree)
    requires WF(t, y) && WF(t, z) && WF(t, w)
    ensures var x := TIf(y, z, w);
            && WF(t, x)
            && Yield(x) == [] + [Token.If] + Yield(y) + ([Token.Then] + Yield(z) + [Token.Else] + Yield(w))
            && Yield(x) == [Token.If] + Yield(y) + [Token.Then] + Yield(z) + ([Token.Else] + Yield(w))
            && Yield(x) == [Token.If] + Yield(y) + [Token.Then] + Yield(z) + [Token.Else] + Yield(w) + []
  {
    var x := TIf(y, z, w);
    assert Yield(x) == [Token.If] + Yield(y) + [Token.Then] + Yield(z) + [Token.Else] + Yield(w);
    hide Yield;
    Groups([Token.If] + Yield(y), [Token.Then], Yield(z), [Token.Else], Yield(w));
    assert [] + [Token.If] == [Token.If];
  }

  lemma Groups(a: seq<Token>, b: seq<Token>, c: seq<Token>, d: seq<Token>, e: seq<Token>)
    ensures a + b + c + d + e == a + (b + c + d + e)
    ensures a + b + c + d + e == a + b + c + (d + e)
    ensures a + b + c + d + e + [] == a + b + c + d + e
  {
  }

  lemma {:induction false} CallBegins(t: Table, s: seq<Token>) returns (x: Tree)
    requires TableOk(t) && Head(s).Identifier? && ParsePrimary(t, s).Fail?
    ensures Begins(t, x, s, ParsePrimary(t, s).rest) && !x.TBinary?
    decreases |s|, 4
  {
    hide ParseArgs, Remains, Used, WFArgs, YieldArgs;
    var args := ArgsBegin(t, Next(Next(s)));
    var r := ParsePrimary(t, s).rest;
    UsedNone(s);
    UsedNone(Next(s));
    x := TCall(Head(s).name, args);
    CallFormed(t, x);
    hide ParsePrimary, Yield, WF;
    NextPiece(s, s, Next(s), [], [], []);
    assert Used(s, Next(s)) == [Head(s)];
    NextPiece(s, Next(s), r, [Head(s)], YieldArgs(args) + [CLOSE], []);
  }

  lemma CallFormed(t: Table, x: Tree)
    requires x.TCall? && x.args != [] && WFArgs(t, x.args) && Yield(x.args[0])[0] != CLOSE
    ensures WF(t, x) && Yield(x) == [Identifier(x.callee)] + [OPEN] + (YieldArgs(x.args) + [CLOSE]) + []
  {
    hide YieldArgs, WFArgs;
    assert Yield(x) == [Identifier(x.callee), OPEN] + YieldArgs(x.args) + [CLOSE];
  }

  lemma {:induction false} ArgsBegin(t: Table, s: seq<Token>) returns (args: seq<Tree>)
    requires TableOk(t) && ParseArgs(t, s).Fail?
    ensures var r := ParseArgs(t, s).rest;
            args != [] && WFArgs(t, args) && Remains(r, s) && Used(s, r) <= YieldArgs(args) + [CLOSE]
    ensures Head(s) != CLOSE ==> Yield(args[0])[0] != CLOSE
    decreases |s|, 10
  {
    hide ParseExpression, Remains, WF, Closed, Yield;
    var u := ParseExpression(t, s);
    var y := FirstStarts(t, s);
    EdgeFree(t, y, CLOSE);
    EdgeFree(t, y, COMMA);
    if u.Good? && Head(u.rest) == COMMA {
      var more := ArgsBegin(t, Next(u.rest));
      var r := ParseArgs(t, s).rest;
      NextPiece(s, u.rest, r, Yield(y), YieldArgs(more) + [CLOSE], []);
      hide ParseArgs, Used;
      args := [y] + more;
      assert args[1..] == more;
      ArgsYield(y, more, [CLOSE]);
      hide YieldArgs;
      assert Yield(y) + [COMMA] + (YieldArgs(more) + [CLOSE]) + [] == YieldArgs(args) + [CLOSE];
    } else {
      args := [y];
    }
  }

  /** The same; an expression of which nothing has been read is taken to be a number. */
  lemma {:induction false} FirstStarts(t: Table, s: seq<Token>) returns (x: Tree)
    requires TableOk(t)
    ensures var r := ParseExpression(t, s);
            Begins(t, x, s, r.rest) && |r.rest| <= |s| && (r.Good? ==> Used(s, r.rest) == Yield(x))
    ensures Head(s) != CLOSE ==> Yield(x)[0] != CLOSE
    decreases |s|, 9
  {
    hide ParseExpression, Remains;
    x := ExpressionStarts(t, s);
    var r := ParseExpression(t, s).rest;
    if |r| == |s| {
      x := ZERO;
    } else {
      assert Yield(x)[0] == Used(s, r)[0] == s[0];
    }
  }

  /** An optional expression behind `k`. */
  lemma {:induction false} OptionStarts(t: Table, k: Token, s: seq<Token>) returns (x: Option<Tree>)
    requires TableOk(t) && Head(s) == k && k != Eof
    ensures var r := ParseExpression(t, Next(s));
            && x.Some? && WF(t, x.value) && Remains(r.rest, s) && |r.rest| <= |s|
            && Used(s, r.rest) <= YieldAfter(k, x) && (r.Good? ==> Used(s, r.rest) == YieldAfter(k, x))
    decreases |s|, 0
  {
    hide ParseExpression, Remains, WF, Yield, Used;
    var y := ExpressionStarts(t, Next(s));
    UsedNext(s, ParseExpression(t, Next(s)).rest);
    x := Some(y);
    PrefixIn([k], Used(Next(s), ParseExpression(t, Next(s)).rest), Yield(y), []);
  }

  lemma {:induction false} InitStarts(t: Table, s: seq<Token>) returns (x: Option<Tree>)
    requires TableOk(t)
    ensures var r := ParseInit(t, s);
            && (x.Some? ==> WF(t, x.value)) && Remains(r.rest, s) && |r.rest| <= |s|
            && Used(s, r.rest) <= YieldAfter(EQUALS, x) && (r.Good? ==> Used(s, r.rest) == YieldAfter(EQUALS, x))
    decreases |s|, 9
  {
    hide ParseExpression, Remains, WF, Yield, Used, YieldAfter;
    if Head(s) == EQUALS {
      x := OptionStarts(t, EQUALS, s);
    } else {
      x := None;
      UsedNone(s);
      NoneYields(EQUALS);
    }
  }

  lemma {:induction false} StepStarts(t: Table, s: seq<Token>) returns (x: Option<Tree>)
    requires TableOk(t)
    ensures var r := ParseStep(t, s);
            && (x.Some? ==> WF(t, x.value)) && Remains(r.rest, s) && |r.rest| <= |s|
            && Used(s, r.rest) <= YieldAfter(COMMA, x) && (r.Good? ==> Used(s, r.rest) == YieldAfter(COMMA, x))
    decreases |s|, 9
  {
    hide ParseExpression, Remains, WF, Yield, Used, YieldAfter;
    if Head(s) == COMMA {
      x := OptionStarts(t, COMMA, s);
    } else {
      x := None;
      UsedNone(s);
      NoneYields(COMMA);
    }
  }

  lemma {:induction false} BindingsBegin(t: Table, s: seq<Token>) returns (bs: seq<TreeBinding>)
    requires TableOk(t) && Head(s).Identifier?
    ensures var r := ParseBindings(t, s);
            && bs != [] && WFBindings(t, bs) && Remains(r.rest, s) && |r.rest| <= |s|
            && Used(s, r.rest) <= YieldBindings(bs) && (r.Good? ==> Used(s, r.rest) == YieldBindings(bs))
    decreases |s|, 9
  {
    hide ParseInit, Remains, WF, Closed, Used, YieldAfter, WFBindings, YieldBindings;
    var u := ParseInit(t, Next(s));
    var init := InitStarts(t, Next(s));
    var b := TreeBinding(Head(s).name, init);
    UsedNone(s);
    NextPiece(s, s, u.rest, [], YieldAfter(EQUALS, init), []);
    var first := [Head(s)] + YieldAfter(EQUALS, init);
    assert [] + [Head(s)] + YieldAfter(EQUALS, init) == first;
    if u.Good? && Head(u.rest) == COMMA {
      var more := MoreBegin(t, Next(u.rest));
      var r := ParseBindings(t, s).rest;
      NextPiece(s, u.rest, r, first, YieldBindings(more), []);
      bs := [b] + more;
      Longer(t, b, more);
    } else {
      bs := [b];
      OneBinding(t, b);
      assert first + [] == first;
    }
  }

  /** Behind a comma in a list: more bindings, or nothing read. */
  lemma {:induction false} MoreBegin(t: Table, s: seq<Token>) returns (bs: seq<TreeBinding>)
    requires TableOk(t)
    ensures var rest := if Head(s).Identifier? then ParseBindings(t, s).rest else s;
            && bs != [] && WFBindings(t, bs) && Remains(rest, s) && |rest| <= |s| && Used(s, rest) <= YieldBindings(bs)
            && (Head(s).Identifier? && ParseBindings(t, s).Good? ==> Used(s, rest) == YieldBindings(bs))
    decreases |s|, 10
  {
    hide ParseBindings, Remains, Used, YieldBindings;
    if Head(s).Identifier? {
      bs := BindingsBegin(t, s);
    } else {
      bs := [TreeBinding("x", None)];
      UsedNone(s);
    }
  }

  lemma OneBinding(t: Table, b: TreeBinding)
    requires b.init.Some? ==> WF(t, b.init.value)
    ensures WFBindings(t, [b]) && YieldBindings([b]) == [Identifier(b.name)] + YieldAfter(EQUALS, b.init)
  {
    hide WF, Yield, YieldAfter;
    assert [b][1..] == [];
  }

  lemma Longer(t: Table, b: TreeBinding, more: seq<TreeBinding>)
    requires TableOk(t) && (b.init.Some? ==> WF(t, b.init.value)) && more != [] && WFBindings(t, more)
    ensures WFBindings(t, [b] + more)
    ensures YieldBindings([b] + more)
            == [Identifier(b.name)] + YieldAfter(EQUALS, b.init) + [COMMA] + YieldBindings(more) + []
  {
    hide WF, Yield, YieldAfter, Closed, Edge;
    var bs := [b] + more;
    assert bs[0] == b && bs[1..] == more;
    if b.init.Some? {
      EdgeFree(t, b.init.value, COMMA);
    }
    assert YieldBindings(bs) == [Identifier(b.name)] + YieldAfter(EQUALS, b.init) + [COMMA] + YieldBindings(more);
  }

  lemma NoneYields(k: Token)
    ensures YieldAfter(k, None) == []
  {
  }

  lemma {:induction false} VarBegins(t: Table, s: seq<Token>) returns (x: Tree)
    requires TableOk(t) && Head(s) == Token.Var && ParsePrimary(t, s).Fail?
    ensures Begins(t, x, s, ParsePrimary(t, s).rest) && !x.TBinary?
    decreases |s|, 4
  {
    hide ParseVar, ParseBindings, FromIn, Remains, WF, WFBindings, Used, Yield, YieldBindings;
    assert ParsePrimary(t, s) == ParseVar(t, Next(s));
    hide ParsePrimary;
    UsedNone(s);
    if !Head(Next(s)).Identifier? {
      assert ParseVar(t, Next(s)) == Fail(ExpectedVarName, Next(s)) by { NoVarName(t, Next(s)); }
      var bs := [TreeBinding("x", None)];
      OneName(t);
      ZeroOk(t);
      UsedNone(Next(s));
      NextPiece(s, s, Next(s), [], [], []);
      x := TVar(bs, ZERO);
      VarYields(t, bs, ZERO);
    } else {
      VarStages(t, Next(s));
      x := ListBegins(t, s);
    }
  }

  lemma NoVarName(t: Table, s: seq<Token>)
    requires !Head(s).Identifier?
    ensures ParseVar(t, s) == Fail(ExpectedVarName, s)
  {
  }

  lemma {:induction false} ListBegins(t: Table, s: seq<Token>) returns (x: Tree)
    requires TableOk(t) && Head(s) == Token.Var && Head(Next(s)).Identifier?
    requires FromIn(t, ParseBindings(t, Next(s))).Fail?
    ensures Begins(t, x, s, FromIn(t, ParseBindings(t, Next(s))).rest) && !x.TBinary?
    decreases |s|, 3
  {
    hide ParseExpression, ParseBindings, Remains, WF, WFBindings, Used, Yield, YieldBindings;
    UsedNone(s);
    ZeroOk(t);
    var u := ParseBindings(t, Next(s));
    var bs := BindingsBegin(t, Next(s));
    if u.Good? && Head(u.rest) == In {
      var body := ExpressionStarts(t, Next(u.rest));
      NextPiece(s, s, u.rest, [], YieldBindings(bs), []);
      assert Used(s, u.rest) == [Token.Var] + YieldBindings(bs);
      NextPiece(s, u.rest, ParseExpression(t, Next(u.rest)).rest, [Token.Var] + YieldBindings(bs), Yield(body), []);
      x := TVar(bs, body);
      VarYields(t, bs, body);
    } else {
      NextPiece(s, s, u.rest, [], YieldBindings(bs), [Token.In] + Yield(ZERO));
      x := TVar(bs, ZERO);
      VarYields(t, bs, ZERO);
    }
  }

  lemma OneName(t: Table)
    ensures WFBindings(t, [TreeBinding("x", None)])
  {
  }

  lemma VarYields(t: Table, bs: seq<TreeBinding>, body: Tree)
    requires bs != [] && WFBindings(t, bs) && WF(t, body)
    ensures var x := TVar(bs, body);
            && WF(t, x) && [Token.Var] <= Yield(x)
            && Yield(x) == [] + [Token.Var] + YieldBindings(bs) + ([Token.In] + Yield(body))
            && Yield(x) == [Token.Var] + YieldBindings(bs) + [Token.In] + Yield(body) + []
  {
    hide WFBindings, YieldBindings;
    assert Yield(TVar(bs, body)) == [Token.Var] + YieldBindings(bs) + [Token.In] + Yield(body);
    hide Yield;
    RegroupThree([Token.Var], YieldBindings(bs), [Token.In], Yield(body));
  }

  lemma {:induction false} ForBegins(t: Table, s: seq<Token>) returns (x: Tree)
    requires TableOk(t) && Head(s) == Token.For && ParsePrimary(t, s).Fail?
    ensures Begins(t, x, s, ParsePrimary(t, s).rest) && !x.TBinary?
    decreases |s|, 4
  {
    hide ParseExpression, ParseFor, ParseStep, Remains, WF, Closed, Used, Yield;
    ZeroOk(t);
    var s1 := Next(s);
    UsedNone(s);
    UsedNone(s1);
    NextPiece(s, s, s1, [], [], []);
    assert ParsePrimary(t, s) == ParseFor(t, s1);
    if !Head(s1).Identifier? {
      assert ParseFor(t, s1) == Fail(ExpectedForName, s1) by { NoName(t, s1); }
      x := TFor("x", ZERO, ZERO, None, ZERO);
      ForYields(t, x);
    } else {
      UsedNone(Next(s1));
      NextPiece(s, s1, Next(s1), [Token.For], [], []);
      if Head(Next(s1)) != EQUALS {
        NoEquals(t, s1);
        x := TFor(Head(s1).name, ZERO, ZERO, None, ZERO);
        ForYields(t, x);
      } else {
        x := ForBodyBegins(t, s);
      }
    }
  }

  lemma NoName(t: Table, s: seq<Token>)
    requires !Head(s).Identifier?
    ensures ParseFor(t, s) == Fail(ExpectedForName, s)
  {
  }

  /** The tokens of a `for` up to the value its variable starts with. */
  function Front(x: Tree): seq<Token>
    requires x.TFor?
  {
    [Token.For] + [Identifier(x.name)] + [EQUALS] + Yield(x.start)
  }

  lemma ForYields(t: Table, x: Tree)
    requires TableOk(t) && x.TFor? && WF(t, x.start) && WF(t, x.end) && (x.step.Some? ==> WF(t, x.step.value))
             && WF(t, x.body)
    ensures WF(t, x) && [Token.For] <= Yield(x) && [Token.For] + [Identifier(x.name)] <= Yield(x)
    ensures Yield(x) == Front(x) + [COMMA] + Yield(x.end) + YieldAfter(COMMA, x.step) + [Token.In] + Yield(x.body)
  {
    EdgeFree(t, x.start, COMMA);
    EdgeFree(t, x.end, COMMA);
    ForUnfolded(x);
    hide Yield, YieldAfter, WF, Closed;
    assert [Token.For] + [Identifier(x.name)] + [EQUALS] == [Token.For, Identifier(x.name), EQUALS];
    var front, end, step, body := Front(x), Yield(x.end), YieldAfter(COMMA, x.step), Yield(x.body);
    assert [Token.For] + [Identifier(x.name)] <= front;
    hide Front;
    StillFirst([Token.For] + [Identifier(x.name)], front, [COMMA] + end + step + [Token.In] + body);
    Groups(front, [COMMA], end, step, [Token.In] + body);
  }

  lemma StillFirst(u: seq<Token>, a: seq<Token>, b: seq<Token>)
    requires u <= a
    ensures u <= a + b
  {
  }

  lemma Grouped(a: seq<Token>, b: seq<Token>, c: seq<Token>, d: seq<Token>, e: seq<Token>, f: seq<Token>)
    ensures a + b + c + d + e + f == a + (b + c + d + e + f)
    ensures a + b + c + d + e + f == a + b + c + (d + e + f)
    ensures a + b + c + d + e + f == a + b + c + d + (e + f)
    ensures a + b + c + d + e + f == a + b + c + d + e + f + []
  {
  }

  lemma {:induction false} ForBodyBegins(t: Table, s: seq<Token>) returns (x: Tree)
    requires TableOk(t) && Head(s) == Token.For && ParsePrimary(t, s).Fail?
    requires Head(Next(s)).Identifier? && Head(Next(Next(s))) == EQUALS
    ensures Begins(t, x, s, ParsePrimary(t, s).rest) && !x.TBinary?
    decreases |s|, 3
  {
    hide ParseExpression, ParseFor, ParseStep, Remains, WF, Closed, Used, Yield, YieldAfter, FromComma;
    ZeroOk(t);
    var s1 := Next(s);
    var s2 := Next(s1);
    UsedNone(s);
    UsedNone(s1);
    NextPiece(s, s, s1, [], [], []);
    UsedNone(s2);
    NextPiece(s, s1, s2, [Token.For], [], []);
    assert ParsePrimary(t, s) == ParseFor(t, s1);
    ForStages(t, s1);
    var u := ParseExpression(t, Next(s2));
    var start := ExpressionStarts(t, Next(s2));
    var name := Head(s1).name;
    var front := [Token.For] + [Identifier(name)];
    assert Used(s, s2) == front;
    if u.Good? && Head(u.rest) == COMMA {
      NextPiece(s, s2, u.rest, front, Yield(start), []);
      x := CommaBegins(t, name, start, u.value, s, u.rest);
    } else {
      x := TFor(name, start, ZERO, None, ZERO);
      ForYields(t, x);
      var more := [COMMA] + Yield(ZERO) + YieldAfter(COMMA, None) + [Token.In] + Yield(ZERO);
      NextPiece(s, s2, u.rest, front, Yield(start), more);
      Grouped(Front(x), [COMMA], Yield(ZERO), YieldAfter(COMMA, None), [Token.In], Yield(ZERO));
    }
  }

  lemma {:induction false} CommaBegins(t: Table, name: string, start: Tree, e: A.Expr, s0: seq<Token>, s: seq<Token>)
    returns (x: Tree)
    requires TableOk(t) && WF(t, start) && Remains(s, s0) && Head(s) == COMMA && FromComma(t, name, e, s).Fail?
    requires |s| <= |s0| && Used(s0, s) == [Token.For] + [Identifier(name)] + [EQUALS] + Yield(start)
    ensures Begins(t, x, s0, FromComma(t, name, e, s).rest) && x.TFor?
    decreases |s|, 0
  {
    hide ParseExpression, ParseStep, Remains, WF, Closed, Used, Yield, YieldAfter, FromEnd;
    ZeroOk(t);
    var u := ParseExpression(t, Next(s));
    var end := ExpressionStarts(t, Next(s));
    var front := Used(s0, s);
    if u.Good? {
      NextPiece(s0, s, u.rest, front, Yield(end), []);
      x := EndBegins(t, name, start, end, e, u.value, s0, u.rest);
    } else {
      x := TFor(name, start, end, None, ZERO);
      ForYields(t, x);
      NextPiece(s0, s, u.rest, front, Yield(end), YieldAfter(COMMA, None) + [Token.In] + Yield(ZERO));
      Grouped(front, [COMMA], Yield(end), YieldAfter(COMMA, None), [Token.In], Yield(ZERO));
    }
  }

  /** The tokens of a `for` up to the end of its condition. */
  function UpToEnd(name: string, start: Tree, end: Tree): seq<Token> {
    [Token.For] + [Identifier(name)] + [EQUALS] + Yield(start) + [COMMA] + Yield(end)
  }

  lemma EndYields(t: Table, x: Tree)
    requires TableOk(t) && x.TFor? && WF(t, x.start) && WF(t, x.end) && (x.step.Some? ==> WF(t, x.step.value))
             && WF(t, x.body)
    ensures var a, b := UpToEnd(x.name, x.start, x.end), YieldAfter(COMMA, x.step);
            && WF(t, x) && Yield(x) == a + b + ([Token.In] + Yield(x.body))
            && Yield(x) == a + b + [Token.In] + Yield(x.body) + []
  {
    ForYields(t, x);
    hide Yield, YieldAfter, WF;
    Grouped(Front(x), [COMMA], Yield(x.end), YieldAfter(COMMA, x.step), [Token.In], Yield(x.body));
  }

  lemma {:induction false} EndBegins(t: Table, name: string, start: Tree, end: Tree, e: A.Expr, e': A.Expr,
                                     s0: seq<Token>, s: seq<Token>)
    returns (x: Tree)
    requires TableOk(t) && WF(t, start) && WF(t, end) && Remains(s, s0) && FromEnd(t, name, e, e', s).Fail?
    requires |s| <= |s0| && Used(s0, s) == UpToEnd(name, start, end)
    ensures Begins(t, x, s0, FromEnd(t, name, e, e', s).rest) && x.TFor?
    decreases |s|, 10
  {
    hide ParseExpression, Remains, WF, Closed, Used, Yield, YieldAfter, ParseStep, TableOk, UpToEnd;
    ZeroOk(t);
    var u := ParseStep(t, s);
    var step := StepStarts(t, s);
    UsedVia(s0, s, u.rest);
    var front := Used(s0, s);
    x := TFor(name, start, end, step, ZERO);
    EndYields(t, x);
    PrefixIn(front, Used(s, u.rest), YieldAfter(COMMA, step), [Token.In] + Yield(ZERO));
    if u.Good? && Head(u.rest) == In {
      var body := ExpressionStarts(t, Next(u.rest));
      NextPiece(s0, u.rest, ParseExpression(t, Next(u.rest)).rest, front + YieldAfter(COMMA, step), Yield(body), []);
      x := TFor(name, start, end, step, body);
      EndYields(t, x);
    }
  }

  // ----- The first token that does not fit -----

  /** Some tokens behind `u` make it the whole of an expression. */
  ghost predicate Continues(t: Table, u: seq<Token>) {
    exists c: seq<Token> :: IsExpression(t, u + c)
  }

  predicate IsExpression(t: Table, s: seq<Token>) {
    var r := ParseExpression(t, s);
    r.Good? && r.rest == []
  }

  lemma TreeContinues(t: Table, x: Tree, u: seq<Token>)
    requires WF(t, x) && u <= Yield(x)
    ensures Continues(t, u)
  {
    hide ParseExpression, WF, Yield, Strip;
    var c := Yield(x)[|u|..];
    assert u + c == Yield(x);
    EdgeFree(t, x, Eof);
    ExpressionParsed(t, x, []);
    assert Yield(x) + [] == u + c;
    assert IsExpression(t, u + c);
  }

  /**
   When the parser gives up, the tokens before the current one begin an expression, and with the current one
   they do not, whatever follows; if there is no current token, it is the end that came too soon.
   */
  lemma GivesUpAtFirst(t: Table, s: seq<Token>)
    requires TableOk(t) && ParseExpression(t, s).Fail?
    ensures var r := ParseExpression(t, s).rest;
            && |r| <= |s| && s == Used(s, r) + r && Continues(t, Used(s, r))
            && (r != [] ==> !Continues(t, Used(s, r) + [r[0]]))
            && (r != [] ==> forall more :: ParseExpression(t, Used(s, r) + [r[0]] + more).Fail?)
  {
    hide ParseExpression, WF, Yield, Continues;
    var r := ParseExpression(t, s).rest;
    var x := ExpressionStarts(t, s);
    TreeContinues(t, x, Used(s, r));
    if r != [] {
      forall more
        ensures ParseExpression(t, Used(s, r) + [r[0]] + more).Fail?
      {
        StillFails(t, s, more);
      }
      NeverContinues(t, Used(s, r) + [r[0]]);
    }
  }

  lemma NeverContinues(t: Table, u: seq<Token>)
    requires forall more :: ParseExpression(t, u + more).Fail?
    ensures !Continues(t, u)
  {
    hide ParseExpression;
  }

  lemma StillFails(t: Table, s: seq<Token>, more: seq<Token>)
    requires ParseExpression(t, s).Fail? && ParseExpression(t, s).rest != []
    ensures var r := ParseExpression(t, s).rest; |r| <= |s| && ParseExpression(t, Used(s, r) + [r[0]] + more).Fail?
  {
    hide ParseExpression;
    var r := ParseExpression(t, s).rest;
    ExpressionRemains(t, s);
    var s', r' := Used(s, r) + [r[0]] + more, [r[0]] + more;
    assert s' == Used(s, r) + r';
    ExpressionLocal(t, s, s', r');
  }

  // ----- When `)` or `,` is an operator -----

  lemma ParenNever(t: Table, s: seq<Token>)
    requires Prec(t, CLOSE) > 0 && Head(s) == OPEN
    ensures ParseExpression(t, s).Fail?
    ensures s == [OPEN, Number("0")] ==> ParseExpression(t, s).rest == []
  {
    var u := ParseExpression(t, Next(s));
    if u.Good? {
      var x := ExpressionSound(t, Next(s));
    }
    if s == [OPEN, Number("0")] {
      NumberRead(t, Next(s));
    }
    PrimaryParen(t, s);
    hide ParsePrimary;
    assert ParsePrimary(t, s) == if u.Fail? then Fail(u.error, u.rest) else Fail(ExpectedClose, u.rest);
  }

  lemma NumberRead(t: Table, s: seq<Token>)
    requires s == [Number("0")]
    ensures ParseExpression(t, s) == Good(A.Number("0"), [])
  {
    assert Next(s) == [];
    assert ParseUnary(t, s) == Good(A.Number("0"), []);
  }

  lemma ForNever(t: Table, s: seq<Token>)
    requires Prec(t, COMMA) > 0 && Head(s) == Token.For && Head(Next(s)).Identifier? && Head(Next(Next(s))) == EQUALS
    ensures ParseExpression(t, s).Fail?
    ensures Next(Next(Next(s))) == [Number("0")] ==> ParseExpression(t, s).rest == []
  {
    var s3 := Next(Next(Next(s)));
    var u := ParseExpression(t, s3);
    ForStages(t, Next(s));
    if u.Good? {
      var x := ExpressionSound(t, s3);
    }
    if s3 == [Number("0")] {
      NumberRead(t, s3);
    }
    assert ParsePrimary(t, s) == ParseFor(t, Next(s));
    hide ParsePrimary, ParseFor;
    assert ParseFor(t, Next(s)) == if u.Fail? then Fail(u.error, u.rest) else Fail(ExpectedForComma, u.rest);
  }

  /** Then there are tokens that nothing can complete and that are still read to their end. */
  lemma LateError(t: Table) returns (s: seq<Token>)
    requires !TableOk(t)
    ensures ParseExpression(t, s).Fail? && ParseExpression(t, s).rest == [] && !Continues(t, s)
  {
    hide ParseExpression;
    if Prec(t, CLOSE) > 0 {
      s := [OPEN, Number("0")];
      ParenNever(t, s);
      forall c: seq<Token>
        ensures !IsExpression(t, s + c)
      {
        ParenNever(t, s + c);
      }
    } else {
      s := [Token.For, Identifier("x"), EQUALS, Number("0")];
      assert Next(Next(Next(s))) == [Number("0")];
      ForNever(t, s);
      forall c: seq<Token>
        ensures !IsExpression(t, s + c)
      {
        ForNever(t, s + c);
      }
    }
  }

  ghost predicate BeginsExpression(t: Table, s: seq<Token>) {
    var r := ParseExpression(t, s).rest;
    |r| <= |s| && Continues(t, Used(s, r))
  }

  /** What has been read before an error always begins an expression if and only if `)` and `,` are no operators. */
  lemma TableOkContinues(t: Table)
    ensures TableOk(t) <==> forall s :: ParseExpression(t, s).Fail? ==> BeginsExpression(t, s)
  {
    hide ParseExpression, Continues;
    if TableOk(t) {
      forall s | ParseExpression(t, s).Fail?
        ensures BeginsExpression(t, s)
      {
        GivesUpAtFirst(t, s);
      }
    } else {
      var s := LateError(t);
      assert Used(s, []) == s;
      assert !BeginsExpression(t, s);
    }
  }
}
