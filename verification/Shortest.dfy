/** No shorter text than the printed one parses to the same expression. */
module Shortest {
  import opened Prelude
  import A = Ast
  import opened Tokens
  import opened Parsing
  import opened Grammar
  import opened GrammarSound
  import opened Printer

  /** The number of tokens of a tree. */
  function Len(x: Tree): nat { |Yield(x)| }

  function LenOption(x: Option<Tree>): nat { |YieldAfter(COMMA, x)| }

  function LenArgs(xs: seq<Tree>): nat { |YieldArgs(xs)| }

  function LenBindings(bs: seq<TreeBinding>): nat { |YieldBindings(bs)| }

  lemma LenIs(x: Tree)
    ensures x.TNumber? || x.TVariable? ==> Len(x) == 1
    ensures x.TParen? ==> Len(x) == Len(x.inner) + 2
    ensures x.TVar? ==> Len(x) == LenBindings(x.bindings) + Len(x.body) + 2
    ensures x.TUnary? ==> Len(x) == Len(x.operand) + 1
    ensures x.TBinary? ==> Len(x) == Len(x.lhs) + Len(x.rhs) + 1
    ensures x.TIf? ==> Len(x) == Len(x.cond) + Len(x.thn) + Len(x.els) + 3
    ensures x.TFor? ==> Len(x) == Len(x.start) + Len(x.end) + LenOption(x.step) + Len(x.body) + 5
    ensures x.TCall? ==> Len(x) == LenArgs(x.args) + 3
  {
  }

  lemma LenOptionIs(k: Token, x: Option<Tree>)
    ensures |YieldAfter(k, x)| == LenOption(x) == if x.Some? then Len(x.value) + 1 else 0
  {
  }

  lemma LenArgsIs(xs: seq<Tree>)
    ensures LenArgs(xs) == if xs == [] then 0 else if |xs| == 1 then Len(xs[0]) else Len(xs[0]) + 1 + LenArgs(xs[1..])
  {
  }

  lemma LenBindingsIs(bs: seq<TreeBinding>)
    ensures LenBindings(bs) == if bs == [] then 0
                               else if |bs| == 1 then 1 + LenOption(bs[0].init)
                               else 2 + LenOption(bs[0].init) + LenBindings(bs[1..])
  {
    hide Yield;
    if bs != [] {
      LenOptionIs(EQUALS, bs[0].init);
    }
  }

  // ----- What follows costs at most one pair of parentheses -----

  lemma {:induction false} BuildSlack(t: Table, e: A.Expr, level: Level, k: Token)
    ensures Len(Build(t, e, level, k)) <= Len(Build(t, e, level, CLOSE)) + 2
    ensures Len(Build(t, e, level, k)) <= Len(Bare(t, e, CLOSE)) + 2
    decreases e, 1
  {
    hide Bare, Len, Fits;
    BareSlack(t, e, k);
    LenIs(TParen(Bare(t, e, CLOSE)));
  }

  lemma {:induction false} BareSlack(t: Table, e: A.Expr, k: Token)
    ensures Len(Bare(t, e, k)) <= Len(Bare(t, e, CLOSE)) + 2
    decreases e, 0
  {
    hide Build, Len, BuildArgs, BuildBindings, BuildOption, LenArgs, LenBindings, LenOption;
    LenIs(Bare(t, e, k));
    LenIs(Bare(t, e, CLOSE));
    match e
    case Number(_) =>
    case Variable(_) =>
    case VarIn(_, body) => BuildSlack(t, body, Some(0), k);
    case Unary(_, a) => BuildSlack(t, a, None, k);
    case Binary(op, _, b) => BuildSlack(t, b, Some(Prec(t, Char(op)) + 1), k);
    case If(_, _, b) => BuildSlack(t, b, Some(0), k);
    case For(_, _, _, _, body) => BuildSlack(t, body, Some(0), k);
    case Call(_, _) =>
  }

  // ----- Calls whose first argument needs a guard -----

  /** No first argument of a call starts with `)`, which only a unary operator `)` can make it do. */
  predicate NoGuards(t: Table, e: A.Expr)
    decreases e, 1
  {
    match e
    case Number(_) => true
    case Variable(_) => true
    case VarIn(bs, body) => NoGuardsBindings(t, bs) && NoGuards(t, body)
    case Unary(_, a) => NoGuards(t, a)
    case Binary(_, a, b) => NoGuards(t, a) && NoGuards(t, b)
    case If(c, a, b) => NoGuards(t, c) && NoGuards(t, a) && NoGuards(t, b)
    case For(_, start, end, step, body) => NoGuards(t, start) && NoGuards(t, end) && NoGuardsOption(t, step)
        && NoGuards(t, body)
    case Call(_, args) => NoGuardsAll(t, args) && GuardFirst(BuildArgs(t, args)) == BuildArgs(t, args)
  }

  predicate NoGuardsAll(t: Table, es: seq<A.Expr>)
    decreases es, 0
  {
    es != [] ==> NoGuards(t, es[0]) && NoGuardsAll(t, es[1..])
  }

  predicate NoGuardsOption(t: Table, e: Option<A.Expr>)
    decreases e, 0
  {
    e.Some? ==> NoGuards(t, e.value)
  }

  predicate NoGuardsBindings(t: Table, bs: seq<A.Binding>)
    decreases bs, 0
  {
    bs != [] ==> NoGuardsOption(t, bs[0].init) && NoGuardsBindings(t, bs[1..])
  }

  // ----- Shortest -----

  /** Any well-formed tree for `e` in this position is at least as long as the printed one. */
  lemma {:induction false} BuildShortest(t: Table, e: A.Expr, level: Level, k: Token, x: Tree)
    requires TableOk(t) && NoGuards(t, e) && WF(t, x) && Strip(x) == e && Fits(t, x, level, k)
    ensures Len(Build(t, e, level, k)) <= Len(x)
    decreases x, 3
  {
    hide Len, NoGuards, Bare, Edge, WF, Strip;
    if x.TParen? {
      InParens(t, x);
      BuildShortest(t, e, Some(0), CLOSE, x.inner);
      LenIs(x);
      if Build(t, e, Some(0), CLOSE) == Bare(t, e, CLOSE) {
        BuildSlack(t, e, level, k);
      } else {
        ClosedFits(t, e, x.inner);
        assert false;
      }
    } else {
      BareShortest(t, e, level, k, x);
    }
  }

  lemma InParens(t: Table, x: Tree)
    requires x.TParen? && WF(t, x)
    ensures WF(t, x.inner) && Strip(x.inner) == Strip(x) && Fits(t, x.inner, Some(0), CLOSE)
  {
    assert x.inner.TBinary? ==> Prec(t, Char(x.inner.op)) > 0;
  }

  lemma ClosedFits(t: Table, e: A.Expr, x: Tree)
    requires TableOk(t) && WF(t, x) && Strip(x) == e
    ensures Build(t, e, Some(0), CLOSE) == Bare(t, e, CLOSE)
  {
    ParsedIsPrintable(t, x);
    BarePrints(t, e, CLOSE);
    Closes(t, Bare(t, e, CLOSE), CLOSE);
  }

  lemma {:induction false} BareShortest(t: Table, e: A.Expr, level: Level, k: Token, x: Tree)
    requires TableOk(t) && NoGuards(t, e) && WF(t, x) && Strip(x) == e && Fits(t, x, level, k) && !x.TParen?
    ensures Len(Build(t, e, level, k)) <= Len(x)
    decreases x, 2
  {
    hide Len, NoGuards, Bare, Edge, WF, Strip;
    BareNoLonger(t, e, k, x);
    ParsedIsPrintable(t, x);
    BarePrints(t, e, k);
    BareFits(t, e, level, k, x);
  }

  /** Where some tree fits without parentheses, so does the bare one. */
  lemma BareFits(t: Table, e: A.Expr, level: Level, k: Token, x: Tree)
    requires TableOk(t) && WF(t, x) && Strip(x) == e && Fits(t, x, level, k) && !x.TParen?
    ensures Fits(t, Bare(t, e, k), level, k)
  {
    ParsedIsPrintable(t, x);
    PartsFit(t, e, k);
    EdgeParts(t, x, k);
    EdgeParts(t, Bare(t, e, k), k);
    hide Edge, Build, BuildArgs, BuildBindings, BuildOption, StripAll, StripBindings, StripOption, WF;
  }

  /** The right edge of a tree is that of its last part. */
  lemma EdgeParts(t: Table, x: Tree, k: Token)
    ensures x.TVariable? ==> (Edge(t, x, k) <==> k != OPEN)
    ensures x.TNumber? || x.TCall? ==> Edge(t, x, k)
    ensures x.TUnary? ==> (Edge(t, x, k) <==> Edge(t, x.operand, k))
    ensures x.TBinary? ==> (Edge(t, x, k) <==> Edge(t, x.rhs, k))
    ensures x.TVar? || x.TFor? ==> (Edge(t, x, k) <==> Prec(t, k) < 0 && Edge(t, x.body, k))
    ensures x.TIf? ==> (Edge(t, x, k) <==> Prec(t, k) < 0 && Edge(t, x.els, k))
  {
  }

  /** The last part of a bare tree has the right edge. */
  lemma PartsFit(t: Table, e: A.Expr, k: Token)
    requires TableOk(t) && Printable(t, e)
    ensures e.VarIn? ==> Edge(t, Build(t, e.body, Some(0), k), k)
    ensures e.Unary? ==> Edge(t, Build(t, e.operand, None, k), k)
    ensures e.Binary? ==> Edge(t, Build(t, e.rhs, Some(Prec(t, Char(e.op)) + 1), k), k)
    ensures e.If? ==> Edge(t, Build(t, e.els, Some(0), k), k)
    ensures e.For? ==> Edge(t, Build(t, e.body, Some(0), k), k)
  {
    hide Build, Edge, WF, Strip;
    match e
    case VarIn(_, body) => BuildPrints(t, body, Some(0), k);
    case Unary(_, a) => BuildPrints(t, a, None, k);
    case Binary(op, _, b) => BuildPrints(t, b, Some(Prec(t, Char(op)) + 1), k);
    case If(_, _, b) => BuildPrints(t, b, Some(0), k);
    case For(_, _, _, _, body) => BuildPrints(t, body, Some(0), k);
    case _ =>
  }

  lemma {:induction false} BareNoLonger(t: Table, e: A.Expr, k: Token, x: Tree)
    requires TableOk(t) && NoGuards(t, e) && WF(t, x) && Strip(x) == e && Edge(t, x, k) && !x.TParen?
    ensures Len(Bare(t, e, k)) <= Len(x)
    decreases x, 1
  {
    hide Len, Build, BuildArgs, BuildBindings, BuildOption, LenArgs, LenBindings, LenOption, StripAll, StripBindings,
        StripOption, WFArgs, WFBindings, NoGuardsAll, NoGuardsBindings, NoGuardsOption, GuardFirst, Yield;
    LenIs(Bare(t, e, k));
    LenIs(x);
    match x
    case TNumber(_) =>
    case TVariable(_) =>
    case TVar(bs, body) =>
      BindingsShortest(t, e.bindings, bs);
      RootOk(t, body);
      BuildShortest(t, e.body, Some(0), k, body);
    case TUnary(_, y) => BuildShortest(t, e.operand, None, k, y);
    case TBinary(op, l, r) =>
      var p := Prec(t, Char(op));
      BuildShortest(t, e.lhs, Some(p), Char(op), l);
      BuildShortest(t, e.rhs, Some(p + 1), k, r);
    case TIf(c, y, z) => IfShortest(t, e, k, x);
    case TFor(_, _, _, _, _) => ForShortest(t, e, k, x);
    case TCall(_, args) => ArgsShortest(t, e.args, args);
  }

  lemma RootOk(t: Table, x: Tree)
    requires WF(t, x)
    ensures x.TBinary? ==> Prec(t, Char(x.op)) >= 0
  {
  }

  lemma {:induction false} IfShortest(t: Table, e: A.Expr, k: Token, x: Tree)
    requires TableOk(t) && NoGuards(t, e) && WF(t, x) && Strip(x) == e && Edge(t, x, k) && x.TIf?
    ensures Len(Build(t, e.cond, Some(0), Token.Then)) <= Len(x.cond)
    ensures Len(Build(t, e.thn, Some(0), Token.Else)) <= Len(x.thn)
    ensures Len(Build(t, e.els, Some(0), k)) <= Len(x.els)
    decreases x, 0
  {
    hide Len, Build;
    RootOk(t, x.cond);
    RootOk(t, x.thn);
    RootOk(t, x.els);
    KeywordEnds(t, x.cond, Token.Then);
    KeywordEnds(t, x.thn, Token.Else);
    BuildShortest(t, e.cond, Some(0), Token.Then, x.cond);
    BuildShortest(t, e.thn, Some(0), Token.Else, x.thn);
    BuildShortest(t, e.els, Some(0), k, x.els);
  }

  lemma {:induction false} ForShortest(t: Table, e: A.Expr, k: Token, x: Tree)
    requires TableOk(t) && NoGuards(t, e) && WF(t, x) && Strip(x) == e && Edge(t, x, k) && x.TFor?
    ensures Len(Build(t, e.start, Some(0), COMMA)) <= Len(x.start)
    ensures Len(Build(t, e.end, Some(0), if e.step.Some? then COMMA else Token.In)) <= Len(x.end)
    ensures LenOption(BuildOption(t, e.step)) <= LenOption(x.step)
    ensures Len(Build(t, e.body, Some(0), k)) <= Len(x.body)
    decreases x, 0
  {
    ForPieces(t, e, k, x);
    hide Len, Build, BuildOption, LenOption, StripOption, Strip, WF, NoGuards, Edge;
    RootOk(t, x.start);
    RootOk(t, x.end);
    RootOk(t, x.body);
    var l := if e.step.Some? then COMMA else Token.In;
    Closes(t, x.start, COMMA);
    Closes(t, x.end, l);
    BuildShortest(t, e.start, Some(0), COMMA, x.start);
    BuildShortest(t, e.end, Some(0), l, x.end);
    OptionShortest(t, e.step, x.step);
    BuildShortest(t, e.body, Some(0), k, x.body);
  }

  lemma ForPieces(t: Table, e: A.Expr, k: Token, x: Tree)
    requires NoGuards(t, e) && WF(t, x) && Strip(x) == e && Edge(t, x, k) && x.TFor?
    ensures e.For? && NoGuards(t, e.start) && NoGuards(t, e.end) && NoGuardsOption(t, e.step) && NoGuards(t, e.body)
    ensures WF(t, x.start) && WF(t, x.end) && WF(t, x.body) && Closed(t, x.body, k)
            && (x.step.Some? ==> WF(t, x.step.value))
    ensures Strip(x.start) == e.start && Strip(x.end) == e.end && StripOption(x.step) == e.step
            && Strip(x.body) == e.body
  {
  }

  lemma {:induction false} OptionShortest(t: Table, e: Option<A.Expr>, x: Option<Tree>)
    requires TableOk(t) && NoGuardsOption(t, e) && StripOption(x) == e && (x.Some? ==> WF(t, x.value))
    ensures LenOption(BuildOption(t, e)) <= LenOption(x)
    decreases x, 0
  {
    hide Len, Build, NoGuards, WF, Strip, LenOption;
    LenOptionIs(COMMA, x);
    LenOptionIs(COMMA, BuildOption(t, e));
    if x.Some? {
      RootOk(t, x.value);
      KeywordEnds(t, x.value, Token.In);
      BuildShortest(t, e.value, Some(0), Token.In, x.value);
    }
  }

  lemma {:induction false} ArgsShortest(t: Table, es: seq<A.Expr>, xs: seq<Tree>)
    requires TableOk(t) && NoGuardsAll(t, es) && WFArgs(t, xs) && StripAll(xs) == es
    ensures LenArgs(BuildArgs(t, es)) <= LenArgs(xs)
    decreases xs, 0
  {
    hide Len, Build, NoGuards, WF, Strip, LenArgs;
    LenArgsIs(xs);
    var ys := BuildArgs(t, es);
    LenArgsIs(ys);
    if xs != [] {
      var k := if |es| == 1 then CLOSE else COMMA;
      assert ys[0] == Build(t, es[0], Some(0), k) && ys[1..] == BuildArgs(t, es[1..]);
      assert StripAll(xs)[1..] == StripAll(xs[1..]);
      RootOk(t, xs[0]);
      BuildShortest(t, es[0], Some(0), k, xs[0]);
      ArgsShortest(t, es[1..], xs[1..]);
    }
  }

  lemma {:induction false} BindingsShortest(t: Table, bs: seq<A.Binding>, xs: seq<TreeBinding>)
    requires TableOk(t) && NoGuardsBindings(t, bs) && WFBindings(t, xs) && StripBindings(xs) == bs
    ensures LenBindings(BuildBindings(t, bs)) <= LenBindings(xs)
    decreases xs, 0
  {
    hide Len, Build, BuildOption, NoGuards, WF, Strip, LenBindings, LenOption, Closed;
    LenBindingsIs(xs);
    var ys := BuildBindings(t, bs);
    LenBindingsIs(ys);
    if xs != [] {
      assert ys[0] == TreeBinding(bs[0].name, BuildOption(t, bs[0].init)) && ys[1..] == BuildBindings(t, bs[1..]);
      assert StripBindings(xs)[1..] == StripBindings(xs[1..]);
      OptionShortest(t, bs[0].init, xs[0].init);
      BindingsShortest(t, bs[1..], xs[1..]);
    }
  }

  /** Every token sequence that the parser reads as `e` up to `k` is at least as long as the printed one. */
  lemma PrintShortest(t: Table, e: A.Expr, s: seq<Token>, rest: seq<Token>)
    requires TableOk(t) && NoGuards(t, e) && ParseExpression(t, s + rest) == Good(e, rest)
    ensures |Print(t, e, Head(rest))| <= |s|
  {
    hide ParseExpression, NoGuards, Build, WF, Strip, Edge, Yield;
    var x := ExpressionSound(t, s + rest);
    assert |Yield(x) + rest| == |s + rest|;
    RootOk(t, x);
    BuildShortest(t, e, Some(0), Head(rest), x);
  }
}
