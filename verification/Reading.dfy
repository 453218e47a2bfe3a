/** Parsing reads tokens from the front only: what is left, after a success or an error, is a suffix. */
module Reading {
  import A = Ast
  import opened Tokens
  import opened Parsing

  ghost predicate Remains(rest: seq<Token>, s: seq<Token>) { |rest| <= |s| && rest == s[|s| - |rest|..] }

  lemma Trans(a: seq<Token>, b: seq<Token>, c: seq<Token>)
    requires Remains(a, b) && Remains(b, c)
    ensures Remains(a, c)
  {
  }

  lemma Same(s: seq<Token>)
    ensures Remains(s, s) && Remains(Next(s), s)
  {
  }

  /** Parsing goes on after one more token. */
  lemma After(a: seq<Token>, b: seq<Token>, c: seq<Token>)
    requires Remains(a, Next(b)) && Remains(b, c)
    ensures Remains(a, c)
  {
    Same(b);
    Trans(a, Next(b), b);
    Trans(a, b, c);
  }

  lemma {:induction false} ExpressionRemains(t: Table, s: seq<Token>)
    ensures Remains(ParseExpression(t, s).rest, s) == true
    decreases |s|, 3
  {
    hide Remains, ParseUnary, ParseBinOpRHS;
    UnaryRemains(t, s);
    var u := ParseUnary(t, s);
    if u.Good? {
      RhsRemains(t, 0, u.value, u.rest);
      Trans(ParseExpression(t, s).rest, u.rest, s);
    }
  }

  lemma {:induction false} UnaryRemains(t: Table, s: seq<Token>)
    ensures Remains(ParseUnary(t, s).rest, s) == true
    decreases |s|, 2
  {
    hide Remains, ParsePrimary;
    if UnaryToken(Head(s)) {
      UnaryRemains(t, Next(s));
      Same(s);
      Trans(ParseUnary(t, s).rest, Next(s), s);
    } else {
      PrimaryRemains(t, s);
    }
  }

  lemma {:induction false} RhsRemains(t: Table, prec: nat, lhs: A.Expr, s: seq<Token>)
    ensures Remains(ParseBinOpRHS(t, prec, lhs, s).rest, s) == true
    decreases |s|, 0
  {
    hide Remains, ParseUnary;
    Same(s);
    var p := Prec(t, Head(s));
    if p >= prec {
      UnaryRemains(t, Next(s));
      var u := ParseUnary(t, Next(s));
      Trans(u.rest, Next(s), s);
      if u.Good? {
        var v := if p < Prec(t, Head(u.rest)) then ParseBinOpRHS(t, p + 1, u.value, u.rest) else Good(u.value, u.rest);
        if p < Prec(t, Head(u.rest)) {
          RhsRemains(t, p + 1, u.value, u.rest);
          Trans(v.rest, u.rest, s);
        }
        if v.Good? {
          RhsRemains(t, prec, A.Binary(Head(s).c, lhs, v.value), v.rest);
          Trans(ParseBinOpRHS(t, prec, lhs, s).rest, v.rest, s);
        }
      }
    }
  }

  lemma {:induction false} PrimaryRemains(t: Table, s: seq<Token>)
    ensures Remains(ParsePrimary(t, s).rest, s) == true
    decreases |s|, 1
  {
    hide Remains, ParseIdentifier, ParseIf, ParseFor, ParseVar, ParseParen;
    Same(s);
    var r := ParsePrimary(t, s);
    match Head(s)
    case Identifier(name) =>
      IdentifierRemains(t, name, Next(s));
      Trans(r.rest, Next(s), s);
    case If =>
      IfRemains(t, Next(s));
      Trans(r.rest, Next(s), s);
    case For =>
      ForRemains(t, Next(s));
      Trans(r.rest, Next(s), s);
    case Var =>
      VarRemains(t, Next(s));
      Trans(r.rest, Next(s), s);
    case Char(c) =>
      if c == '(' {
        ParenRemains(t, Next(s));
        Trans(r.rest, Next(s), s);
      }
    case _ =>
  }

  lemma {:induction false} ParenRemains(t: Table, s: seq<Token>)
    ensures Remains(ParseParen(t, s).rest, s) == true
    decreases |s|, 4
  {
    hide Remains, ParseExpression;
    ExpressionRemains(t, s);
    var u := ParseExpression(t, s);
    Same(Next(u.rest));
    After(Next(u.rest), u.rest, s);
  }

  lemma {:induction false} IdentifierRemains(t: Table, name: string, s: seq<Token>)
    ensures Remains(ParseIdentifier(t, name, s).rest, s) == true
    decreases |s|, 0
  {
    hide Remains, ParseArgs;
    Same(s);
    Same(Next(s));
    After(Next(s), s, s);
    Same(Next(Next(s)));
    After(Next(Next(s)), Next(s), s);
    if Head(s) == OPEN && Head(Next(s)) != CLOSE {
      ArgsRemain(t, Next(s));
      Trans(ParseArgs(t, Next(s)).rest, Next(s), s);
    }
  }

  lemma {:induction false} ArgsRemain(t: Table, s: seq<Token>)
    ensures Remains(ParseArgs(t, s).rest, s) == true
    decreases |s|, 4
  {
    hide Remains, ParseExpression;
    ExpressionRemains(t, s);
    var u := ParseExpression(t, s);
    Same(Next(u.rest));
    After(Next(u.rest), u.rest, s);
    if u.Good? && Head(u.rest) == COMMA {
      ArgsRemain(t, Next(u.rest));
      After(ParseArgs(t, Next(u.rest)).rest, u.rest, s);
    }
  }

  lemma {:induction false} IfRemains(t: Table, s: seq<Token>)
    ensures Remains(ParseIf(t, s).rest, s) == true
    decreases |s|, 4
  {
    hide Remains, ParseExpression;
    ExpressionRemains(t, s);
    var u := ParseExpression(t, s);
    if u.Good? && Head(u.rest) == Then {
      ExpressionRemains(t, Next(u.rest));
      var v := ParseExpression(t, Next(u.rest));
      After(v.rest, u.rest, s);
      if v.Good? && Head(v.rest) == Else {
        ExpressionRemains(t, Next(v.rest));
        After(ParseExpression(t, Next(v.rest)).rest, v.rest, s);
      }
    }
  }

  lemma {:induction false} ForRemains(t: Table, s: seq<Token>)
    ensures Remains(ParseFor(t, s).rest, s) == true
    decreases |s|, 4
  {
    hide Remains, ParseExpression, ParseStep;
    Same(s);
    Same(Next(s));
    Same(Next(Next(s)));
    After(Next(s), s, s);
    After(Next(Next(s)), Next(s), s);
    if Head(s).Identifier? && Head(Next(s)) == EQUALS {
      var s2 := Next(Next(s));
      ExpressionRemains(t, s2);
      var u := ParseExpression(t, s2);
      Trans(u.rest, s2, s);
      if u.Good? && Head(u.rest) == COMMA {
        ExpressionRemains(t, Next(u.rest));
        var v := ParseExpression(t, Next(u.rest));
        After(v.rest, u.rest, s);
        if v.Good? {
          StepRemains(t, v.rest);
          var w := ParseStep(t, v.rest);
          Trans(w.rest, v.rest, s);
          if w.Good? && Head(w.rest) == In {
            ExpressionRemains(t, Next(w.rest));
            After(ParseExpression(t, Next(w.rest)).rest, w.rest, s);
          }
        }
      }
    }
  }

  lemma {:induction false} StepRemains(t: Table, s: seq<Token>)
    ensures Remains(ParseStep(t, s).rest, s) == true
    decreases |s|, 0
  {
    hide Remains, ParseExpression;
    Same(s);
    if Head(s) == COMMA {
      ExpressionRemains(t, Next(s));
      After(ParseExpression(t, Next(s)).rest, s, s);
    }
  }

  lemma {:induction false} VarRemains(t: Table, s: seq<Token>)
    ensures Remains(ParseVar(t, s).rest, s) == true
    decreases |s|, 5
  {
    hide Remains, ParseExpression, ParseBindings;
    Same(s);
    if Head(s).Identifier? {
      BindingsRemain(t, s);
      var u := ParseBindings(t, s);
      if u.Good? && Head(u.rest) == In {
        ExpressionRemains(t, Next(u.rest));
        After(ParseExpression(t, Next(u.rest)).rest, u.rest, s);
      }
    }
  }

  lemma {:induction false} BindingsRemain(t: Table, s: seq<Token>)
    requires Head(s).Identifier?
    ensures Remains(ParseBindings(t, s).rest, s) == true
    decreases |s|, 4
  {
    hide Remains, ParseInit;
    Same(s);
    InitRemains(t, Next(s));
    var u := ParseInit(t, Next(s));
    After(u.rest, s, s);
    Same(Next(u.rest));
    After(Next(u.rest), u.rest, s);
    if u.Good? && Head(u.rest) == COMMA && Head(Next(u.rest)).Identifier? {
      BindingsRemain(t, Next(u.rest));
      After(ParseBindings(t, Next(u.rest)).rest, u.rest, s);
    }
  }

  lemma {:induction false} InitRemains(t: Table, s: seq<Token>)
    ensures Remains(ParseInit(t, s).rest, s) == true
    decreases |s|, 0
  {
    hide Remains, ParseExpression;
    Same(s);
    if Head(s) == EQUALS {
      ExpressionRemains(t, Next(s));
      After(ParseExpression(t, Next(s)).rest, s, s);
    }
  }

  lemma {:induction false} ParamsRemain(s: seq<Token>)
    ensures Remains(ParseParams(s).rest, s) == true
    decreases |s|
  {
    hide Remains;
    Same(s);
    if Head(s).Identifier? {
      var u := Next(s);
      Same(Next(u));
      After(Next(u), u, s);
      if Head(u) == COMMA {
        ParamsRemain(Next(u));
        After(ParseParams(Next(u)).rest, u, s);
      }
    }
  }

  lemma NameRemains(v: Values, s: seq<Token>)
    ensures Remains(ParseName(v, s).rest, s) == true
  {
    hide Remains, ParseName;
    NameRest(v, s);
    Same(s);
    var s2 := Next(Next(s));
    Same(s2);
    After(s2, Next(s), s);
    After(Next(s2), s2, s);
  }

  /** At most three tokens are read. */
  lemma NameRest(v: Values, s: seq<Token>)
    ensures ParseName(v, s).rest in [s, Next(s), Next(Next(s)), Next(Next(Next(s)))]
  {
  }

  lemma PrototypeRemains(v: Values, s: seq<Token>)
    ensures Remains(ParsePrototype(v, s).rest, s) == true
  {
    hide Remains, ParseName, ParseParams;
    NameRemains(v, s);
    var u := ParseName(v, s);
    if u.Good? && Head(u.rest) == OPEN {
      ParamsRemain(Next(u.rest));
      After(ParseParams(Next(u.rest)).rest, u.rest, s);
    }
  }

  lemma DefinitionRemains(v: Values, t: Table, s: seq<Token>)
    requires Head(s) == Def
    ensures Remains(ParseDefinition(v, t, s).rest, s) == true
  {
    hide Remains, ParsePrototype, ParseExpression;
    Same(s);
    PrototypeRemains(v, Next(s));
    var u := ParsePrototype(v, Next(s));
    After(u.rest, s, s);
    if u.Good? {
      ExpressionRemains(t, u.rest);
      Trans(ParseExpression(t, u.rest).rest, u.rest, s);
    }
  }
}
