/**
 Whatever the parser accepts is a well-formed tree, token for token; with completeness, exactly those are
 accepted.
 */
module GrammarSound {
  import opened Prelude
  import A = Ast
  import opened Tokens
  import opened Parsing
  import opened Grammar
  import opened GrammarComplete

  /** Tree `x` stands for the tokens of `s` up to `rest`, means `e` and does not run on into `rest`. */
  ghost predicate Reads(t: Table, x: Tree, s: seq<Token>, e: A.Expr, rest: seq<Token>) {
    WF(t, x) && Strip(x) == e && Yield(x) + rest == s && Edge(t, x, Head(rest))
  }

  lemma Behead(s: seq<Token>)
    ensures Head(s) != Eof ==> s == [Head(s)] + Next(s)
  {
  }

  lemma {:induction false} ExpressionSound(t: Table, s: seq<Token>) returns (x: Tree)
    requires ParseExpression(t, s).Good?
    ensures var r := ParseExpression(t, s); Reads(t, x, s, r.value, r.rest) && Closed(t, x, Head(r.rest))
    decreases |s|, 5
  {
    hide ParseUnary, ParseBinOpRHS, WF, Edge, Yield, Strip;
    var u := ParseUnary(t, s);
    var y := UnarySound(t, s);
    x := SpineSound(t, 0, y, s, u.rest);
  }

  /** The loop of `parseBinOpRHS` extends a tree that is not looser than `prec`. */
  lemma {:induction false} SpineSound(t: Table, prec: nat, l: Tree, s0: seq<Token>, s: seq<Token>) returns (x: Tree)
    requires Reads(t, l, s0, Strip(l), s) && Tighter(t, l, prec) && Tighter(t, l, Prec(t, Head(s)))
    requires ParseBinOpRHS(t, prec, Strip(l), s).Good?
    ensures var r := ParseBinOpRHS(t, prec, Strip(l), s);
            Reads(t, x, s0, r.value, r.rest) && Tighter(t, x, prec) && Prec(t, Head(r.rest)) < prec
    decreases |s|, 1
  {
    hide ParseUnary, WF, Edge, Yield, Strip;
    var k := Head(s);
    var p := Prec(t, k);
    if p < prec {
      x := l;
    } else {
      var u := ParseUnary(t, Next(s));
      var y := UnarySound(t, Next(s));
      var z, rest := y, u.rest;
      if p < Prec(t, Head(u.rest)) {
        z := SpineSound(t, p + 1, y, Next(s), u.rest);
        rest := ParseBinOpRHS(t, p + 1, Strip(y), u.rest).rest;
      }
      JoinReads(t, l, s0, s, z, rest);
      x := SpineSound(t, prec, TBinary(k.c, l, z), s0, rest);
    }
  }

  lemma JoinReads(t: Table, l: Tree, s0: seq<Token>, s: seq<Token>, z: Tree, rest: seq<Token>)
    requires Reads(t, l, s0, Strip(l), s) && Reads(t, z, Next(s), Strip(z), rest)
    requires var p := Prec(t, Head(s)); p > 0 && Tighter(t, l, p) && Tighter(t, z, p + 1)
    ensures Head(s).Char?
    ensures var x := TBinary(Head(s).c, l, z);
            Reads(t, x, s0, Strip(x), rest) && Strip(x) == A.Binary(Head(s).c, Strip(l), Strip(z))
  {
    hide Yield, Closed;
    Behead(s);
    BinaryYield(Head(s).c, l, z, rest);
  }

  lemma {:induction false} UnarySound(t: Table, s: seq<Token>) returns (x: Tree)
    requires ParseUnary(t, s).Good?
    ensures var r := ParseUnary(t, s); Reads(t, x, s, r.value, r.rest) && !x.TBinary?
    decreases |s|, 4
  {
    hide ParsePrimary;
    if UnaryToken(Head(s)) {
      var y := UnarySound(t, Next(s));
      x := TUnary(Head(s).c, y);
      Behead(s);
      assert Yield(x) + ParseUnary(t, s).rest == [Head(s)] + (Yield(y) + ParseUnary(t, s).rest);
    } else {
      x := PrimarySound(t, s);
    }
  }

  lemma {:induction false} PrimarySound(t: Table, s: seq<Token>) returns (x: Tree)
    requires ParsePrimary(t, s).Good?
    ensures var r := ParsePrimary(t, s); Reads(t, x, s, r.value, r.rest) && !x.TBinary?
    decreases |s|, 3
  {
    hide ParseExpression, ParseIf, ParseFor, ParseVar, ParseIdentifier;
    Behead(s);
    match Head(s)
    case Number(text) => x := TNumber(text);
    case Identifier(name) => x := IdentifierSound(t, s);
    case If => x := IfSound(t, s);
    case For => x := ForSound(t, s);
    case Var => x := VarSound(t, s);
    case Char(c) =>
      var y := ExpressionSound(t, Next(s));
      x := TParen(y);
      ParenReads(t, s, y);
  }

  lemma ParenReads(t: Table, s: seq<Token>, y: Tree)
    requires Head(s) == OPEN
    requires var r := ParseExpression(t, Next(s));
             r.Good? && Reads(t, y, Next(s), r.value, r.rest) && Closed(t, y, Head(r.rest)) && Head(r.rest) == CLOSE
    ensures var r := ParsePrimary(t, s); r.Good? && Reads(t, TParen(y), s, r.value, r.rest)
  {
    hide ParseExpression, ParsePrimary, Closed;
    PrimaryParen(t, s);
    var r := ParseExpression(t, Next(s));
    Behead(s);
    Behead(r.rest);
    hide Yield;
    ParenYield(y, Next(r.rest));
  }

  lemma PrimaryParen(t: Table, s: seq<Token>)
    requires Head(s) == OPEN
    ensures ParsePrimary(t, s) == ParseParen(t, Next(s))
  {
    hide ParseParen;
  }

  lemma {:induction false} IdentifierSound(t: Table, s: seq<Token>) returns (x: Tree)
    requires Head(s).Identifier? && ParsePrimary(t, s).Good?
    ensures var r := ParsePrimary(t, s); Reads(t, x, s, r.value, r.rest) && !x.TBinary?
    decreases |s|, 1
  {
    hide ParseArgs, WF, Edge, Yield, Strip, YieldArgs;
    var name, s1 := Head(s).name, Next(s);
    Behead(s);
    Behead(s1);
    if Head(s1) != OPEN {
      x := TVariable(name);
      VariableReads(t, name, s);
    } else if Head(Next(s1)) == CLOSE {
      x := TCall(name, []);
      CallReads(t, name, [], s, Next(Next(s1)));
    } else {
      var args := ArgsSound(t, Next(s1));
      x := TCall(name, args);
      CallReads(t, name, args, s, ParseArgs(t, Next(s1)).rest);
    }
  }

  lemma VariableReads(t: Table, name: string, s: seq<Token>)
    requires Head(s) == Identifier(name) && Head(Next(s)) != OPEN
    ensures Reads(t, TVariable(name), s, A.Variable(name), Next(s))
  {
    Behead(s);
  }

  lemma CallReads(t: Table, name: string, args: seq<Tree>, s: seq<Token>, rest: seq<Token>)
    requires Head(s) == Identifier(name) && Head(Next(s)) == OPEN && WFArgs(t, args)
    requires if args == [] then Head(Next(Next(s))) == CLOSE && rest == Next(Next(Next(s)))
             else Head(Next(Next(s))) != CLOSE && YieldArgs(args) + ([CLOSE] + rest) == Next(Next(s))
    ensures Reads(t, TCall(name, args), s, A.Call(name, StripAll(args)), rest)
  {
    hide WFArgs, StripAll, Closed, YieldArgs;
    Behead(s);
    Behead(Next(s));
    CallYield(name, args, rest);
    if args == [] {
      Behead(Next(Next(s)));
      NoArgs(rest);
    } else {
      FirstArg(args, rest);
    }
  }

  lemma CallYield(name: string, args: seq<Tree>, rest: seq<Token>)
    ensures Yield(TCall(name, args)) + rest == [Identifier(name)] + ([OPEN] + (YieldArgs(args) + ([CLOSE] + rest)))
  {
    hide YieldArgs;
  }

  lemma NoArgs(rest: seq<Token>)
    ensures YieldArgs([]) + ([CLOSE] + rest) == [CLOSE] + rest
  {
  }

  lemma FirstArg(args: seq<Tree>, rest: seq<Token>)
    requires args != []
    ensures Head(YieldArgs(args) + ([CLOSE] + rest)) == Yield(args[0])[0]
  {
    assert (YieldArgs(args) + ([CLOSE] + rest))[0] == Yield(args[0])[0];
  }

  lemma {:induction false} ArgsSound(t: Table, s: seq<Token>) returns (args: seq<Tree>)
    requires ParseArgs(t, s).Good?
    ensures var r := ParseArgs(t, s);
            args != [] && WFArgs(t, args) && StripAll(args) == r.value && YieldArgs(args) + ([CLOSE] + r.rest) == s
    decreases |s|, 6
  {
    hide ParseExpression, WF, Closed, Yield, Strip, Edge;
    var u := ParseExpression(t, s);
    var y := ExpressionSound(t, s);
    Behead(u.rest);
    if Head(u.rest) == CLOSE {
      args := [y];
      ArgsStrip(y, []);
      assert [y] + [] == [y];
    } else {
      var more := ArgsSound(t, Next(u.rest));
      args := [y] + more;
      assert args[1..] == more;
      var rest := ParseArgs(t, Next(u.rest)).rest;
      hide YieldArgs, StripAll, ParseArgs;
      ArgsYield(y, more, [CLOSE] + rest);
      ArgsStrip(y, more);
    }
  }

  lemma ArgsYield(y: Tree, more: seq<Tree>, rest: seq<Token>)
    requires more != []
    ensures YieldArgs([y] + more) + rest == Yield(y) + ([COMMA] + (YieldArgs(more) + rest))
  {
    hide Yield;
    var args := [y] + more;
    assert args[0] == y && args[1..] == more;
    assert YieldArgs(args) == Yield(y) + [COMMA] + YieldArgs(more);
  }

  lemma ArgsStrip(y: Tree, more: seq<Tree>)
    ensures StripAll([y] + more) == [Strip(y)] + StripAll(more)
  {
    hide Strip;
    var args := [y] + more;
    assert args[0] == y && args[1..] == more;
  }

  lemma {:induction false} IfSound(t: Table, s: seq<Token>) returns (x: Tree)
    requires Head(s) == Token.If && ParsePrimary(t, s).Good?
    ensures var r := ParsePrimary(t, s); Reads(t, x, s, r.value, r.rest) && !x.TBinary?
    decreases |s|, 1
  {
    hide ParseExpression, Closed, Yield, WF, Edge, Strip;
    var u := ParseExpression(t, Next(s));
    var c := ExpressionSound(t, Next(s));
    var v := ParseExpression(t, Next(u.rest));
    var y := ExpressionSound(t, Next(u.rest));
    var w := ParseExpression(t, Next(v.rest));
    var z := ExpressionSound(t, Next(v.rest));
    x := TIf(c, y, z);
    Behead(s);
    Behead(u.rest);
    Behead(v.rest);
    IfYield(c, y, z, w.rest);
    IfReads(t, x, Head(w.rest));
  }

  lemma IfReads(t: Table, x: Tree, after: Token)
    requires x.TIf? && WF(t, x.cond) && WF(t, x.thn) && WF(t, x.els) && Closed(t, x.els, after)
    ensures WF(t, x) && Edge(t, x, after) && Strip(x) == A.If(Strip(x.cond), Strip(x.thn), Strip(x.els))
  {
  }


  lemma {:induction false} ForSound(t: Table, s: seq<Token>) returns (x: Tree)
    requires Head(s) == Token.For && ParsePrimary(t, s).Good?
    ensures var r := ParsePrimary(t, s); Reads(t, x, s, r.value, r.rest) && !x.TBinary?
    decreases |s|, 2
  {
    hide ParseExpression, Closed, ParseStep, Yield, Strip, WF, Edge;
    var s1 := Next(s);
    var s2 := Next(Next(s1));
    var u := ParseExpression(t, s2);
    var start := ExpressionSound(t, s2);
    var v := ParseExpression(t, Next(u.rest));
    var end := ExpressionSound(t, Next(u.rest));
    var step := StepSound(t, v.rest);
    var r3 := ParseStep(t, v.rest).rest;
    var body := ExpressionSound(t, Next(r3));
    x := TFor(Head(s1).name, start, end, step, body);
    Behead(s);
    Behead(s1);
    Behead(Next(s1));
    Behead(u.rest);
    Behead(r3);
    ForYield(x, ParseExpression(t, Next(r3)).rest);
    ForReads(t, x, Head(v.rest), Head(ParseExpression(t, Next(r3)).rest));
  }

  lemma ForReads(t: Table, x: Tree, k: Token, after: Token)
    requires x.TFor? && WF(t, x.start) && Closed(t, x.start, COMMA) && WF(t, x.end) && Closed(t, x.end, k)
    requires x.step.Some? ==> k == COMMA && WF(t, x.step.value)
    requires WF(t, x.body) && Closed(t, x.body, after)
    ensures WF(t, x) && Edge(t, x, after) && Strip(x)
            == A.For(x.name, Strip(x.start), Strip(x.end), StripOption(x.step), Strip(x.body))
  {
  }

  lemma {:induction false} StepSound(t: Table, s: seq<Token>) returns (step: Option<Tree>)
    requires ParseStep(t, s).Good?
    ensures var r := ParseStep(t, s);
            && StripOption(step) == r.value && YieldAfter(COMMA, step) + r.rest == s
            && (step.Some? ==> Head(s) == COMMA && WF(t, step.value))
    decreases |s|, 1
  {
    hide ParseExpression, Closed, Yield, Strip, WF, Edge;
    Behead(s);
    if Head(s) != COMMA {
      step := None;
      assert [] + s == s;
    } else {
      var y := ExpressionSound(t, Next(s));
      step := Some(y);
      var rest := ParseExpression(t, Next(s)).rest;
      assert [COMMA] + Yield(y) + rest == [COMMA] + (Yield(y) + rest);
    }
  }

  lemma {:induction false} VarSound(t: Table, s: seq<Token>) returns (x: Tree)
    requires Head(s) == Token.Var && ParsePrimary(t, s).Good?
    ensures var r := ParsePrimary(t, s); Reads(t, x, s, r.value, r.rest) && !x.TBinary?
    decreases |s|, 1
  {
    hide ParseExpression, ParseBindings, WF, Edge, Yield, Strip;
    var u := ParseBindings(t, Next(s));
    var bs := BindingsSound(t, Next(s));
    var body := ExpressionSound(t, Next(u.rest));
    x := TVar(bs, body);
    Behead(s);
    Behead(u.rest);
    VarReads(t, bs, body, s, u.rest, ParseExpression(t, Next(u.rest)).rest);
  }

  lemma VarReads(t: Table, bs: seq<TreeBinding>, body: Tree, s: seq<Token>, s1: seq<Token>, rest: seq<Token>)
    requires Head(s) == Token.Var && bs != [] && WFBindings(t, bs) && YieldBindings(bs) + s1 == Next(s)
    requires Head(s1) == Token.In && Reads(t, body, Next(s1), Strip(body), rest) && Closed(t, body, Head(rest))
    ensures Reads(t, TVar(bs, body), s, A.VarIn(StripBindings(bs), Strip(body)), rest)
  {
    hide WFBindings, YieldBindings, StripBindings, Closed, Yield;
    Behead(s);
    Behead(s1);
    VarYield(bs, body, rest);
  }

  lemma {:induction false} BindingsSound(t: Table, s: seq<Token>) returns (bs: seq<TreeBinding>)
    requires Head(s).Identifier? && ParseBindings(t, s).Good?
    ensures var r := ParseBindings(t, s);
            bs != [] && WFBindings(t, bs) && StripBindings(bs) == r.value && YieldBindings(bs) + r.rest == s
    decreases |s|, 6
  {
    hide ParseInit, Yield, Strip, WF, Edge, YieldAfter, StripOption, Closed;
    var u := ParseInit(t, Next(s));
    var init := InitSound(t, Next(s));
    var b := TreeBinding(Head(s).name, init);
    Behead(s);
    Behead(u.rest);
    if Head(u.rest) != COMMA {
      bs := [b];
      BindingsYield(bs, u.rest);
      assert StripBindings(bs) == [A.Binding(b.name, StripOption(init))] + StripBindings([]);
    } else {
      var more := BindingsSound(t, Next(u.rest));
      bs := [b] + more;
      assert bs[1..] == more;
      BindingsYield(bs, ParseBindings(t, Next(u.rest)).rest);
    }
  }

  lemma {:induction false} InitSound(t: Table, s: seq<Token>) returns (init: Option<Tree>)
    requires ParseInit(t, s).Good?
    ensures var r := ParseInit(t, s);
            && StripOption(init) == r.value && YieldAfter(EQUALS, init) + r.rest == s
            && (init.Some? ==> WF(t, init.value) && Closed(t, init.value, Head(r.rest)))
    decreases |s|, 1
  {
    hide ParseExpression, Closed, Yield, Strip, WF, Edge;
    Behead(s);
    if Head(s) != EQUALS {
      init := None;
      assert [] + s == s;
    } else {
      var y := ExpressionSound(t, Next(s));
      init := Some(y);
      var rest := ParseExpression(t, Next(s)).rest;
      assert [EQUALS] + Yield(y) + rest == [EQUALS] + (Yield(y) + rest);
    }
  }

  /** The parser accepts exactly the well-formed trees, and reads each one up to its end. */
  lemma AcceptsIff(t: Table, s: seq<Token>, e: A.Expr, rest: seq<Token>)
    ensures ParseExpression(t, s) == Good(e, rest)
            <==> exists x: Tree :: Reads(t, x, s, e, rest) && Closed(t, x, Head(rest))
  {
    hide ParseExpression, WF, Edge, Yield, Strip;
    if ParseExpression(t, s) == Good(e, rest) {
      var x := ExpressionSound(t, s);
    }
    if x: Tree :| Reads(t, x, s, e, rest) && Closed(t, x, Head(rest)) {
      ExpressionParsed(t, x, rest);
    }
  }

  /** No text has two readings: two well-formed trees with the same tokens mean the same expression. */
  lemma Unambiguous(t: Table, x: Tree, y: Tree, rest: seq<Token>, rest': seq<Token>)
    requires WF(t, x) && Closed(t, x, Head(rest)) && WF(t, y) && Closed(t, y, Head(rest'))
             && Yield(x) + rest == Yield(y) + rest'
    ensures Strip(x) == Strip(y) && rest == rest'
  {
    hide ParseExpression, WF, Closed, Yield, Strip;
    ExpressionParsed(t, x, rest);
    ExpressionParsed(t, y, rest');
  }
}
